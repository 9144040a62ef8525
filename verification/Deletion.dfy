/**
 Deleting sessions changes no number: capture, prepare, any outcomes, loss of the
 logs and overlay together leave every window analysis as it was.
 */
module Deletion {
  import opened Time
  import opened Options
  import opened Ordering
  import opened Dataset
  import opened Records
  import opened Ledger
  import opened LedgerRuns
  import opened Overlay
  import opened OverlayLaws
  import opened OverlayOrder
  import opened Pricing
  import opened Attribution

  /** The dataset collected after the logs of `threads` are gone, with every interaction that involves them. */
  function Drop(d: Rollout, threads: set<string>): Rollout {
    d.(calls := DropCalls(d.calls, threads), tasks := DropTasks(d.tasks, threads), turns := DropTurns(d.turns, threads),
       interactions := DropInteractions(d.interactions, threads))
  }

  function DropCalls(calls: seq<UsageCall>, threads: set<string>): seq<UsageCall> {
    if calls == [] then
      []
    else
      var init, c := DropCalls(calls[..|calls| - 1], threads), calls[|calls| - 1];
      if c.thread in threads then init else init + [c]
  }

  function DropTasks(tasks: seq<Task>, threads: set<string>): seq<Task> {
    if tasks == [] then
      []
    else
      var init, t := DropTasks(tasks[..|tasks| - 1], threads), tasks[|tasks| - 1];
      if t.thread in threads then init else init + [t]
  }

  function DropTurns(turns: seq<Turn>, threads: set<string>): seq<Turn> {
    if turns == [] then
      []
    else
      var init, t := DropTurns(turns[..|turns| - 1], threads), turns[|turns| - 1];
      if t.thread in threads then init else init + [t]
  }

  function DropInteractions(edges: seq<AgentInteraction>, threads: set<string>): seq<AgentInteraction> {
    if edges == [] then
      []
    else
      var init, e := DropInteractions(edges[..|edges| - 1], threads), edges[|edges| - 1];
      if e.parentThread in threads || e.childThread in threads then init else init + [e]
  }

  lemma {:induction false} DroppedCallsOf(calls: seq<UsageCall>, threads: set<string>, thread: string)
    ensures CallsOf(thread, DropCalls(calls, threads)) == if thread in threads then [] else CallsOf(thread, calls)
  {
    if calls != [] {
      var init, c := calls[..|calls| - 1], calls[|calls| - 1];
      DroppedCallsOf(init, threads, thread);
      CallsOfExtend(thread, DropCalls(init, threads), c);
    }
  }

  // ----- Comparing call lists thread by thread

  lemma {:induction false} CountInThread(calls: seq<UsageCall>, c: UsageCall)
    ensures multiset(calls)[c] == multiset(CallsOf(c.thread, calls))[c]
  {
    if calls != [] {
      var init, last := calls[..|calls| - 1], calls[|calls| - 1];
      CountInThread(init, c);
      assert calls == init + [last];
    }
  }

  lemma SameInEveryThread(s: seq<UsageCall>, t: seq<UsageCall>)
    requires forall thread :: multiset(CallsOf(thread, s)) == multiset(CallsOf(thread, t))
    ensures multiset(s) == multiset(t)
  {
    hide CallsOf;
    forall c ensures multiset(s)[c] == multiset(t)[c] {
      CountInThread(s, c);
      CountInThread(t, c);
    }
  }

  lemma {:induction false} CallsOfIsOwned(thread: string, calls: seq<UsageCall>)
    ensures OwnedBy(thread, CallsOf(thread, calls))
  {
    if calls != [] {
      CallsOfIsOwned(thread, calls[..|calls| - 1]);
    }
  }

  ghost predicate OwnedBy(thread: string, calls: seq<UsageCall>) {
    forall i :: 0 <= i < |calls| ==> calls[i].thread == thread
  }

  lemma {:induction false} SlotIsKey(thread: string, calls: seq<UsageCall>, c: UsageCall)
    requires OwnedBy(thread, calls) && c.thread == thread
    ensures LastAt(calls, SlotOf(c)).None? <==> KeyOf(c) !in KeyMap(calls)
  {
    hide KeyOf;
    if calls != [] {
      SlotIsKey(thread, calls[..|calls| - 1], c);
    }
  }

  /** Within one thread, adding saved calls is a union by key in which the calls already there win. */
  lemma {:induction false} AddCallsIsUnion(thread: string, own: seq<UsageCall>, saved: seq<UsageCall>, asOf: Instant)
    requires OwnedBy(thread, own) && OwnedBy(thread, saved)
    requires DistinctKeys(own) && DistinctKeys(saved)
    requires forall i :: 0 <= i < |saved| ==> saved[i].timestamp <= asOf
    ensures OwnedBy(thread, AddCalls(own, saved, asOf))
    ensures DistinctKeys(AddCalls(own, saved, asOf))
    ensures KeyMap(AddCalls(own, saved, asOf)) == KeyMap(saved) + KeyMap(own)
  {
    if saved == [] {
      assert KeyMap(saved) + KeyMap(own) == KeyMap(own);
    } else {
      var init, c := saved[..|saved| - 1], saved[|saved| - 1];
      AddCallsIsUnion(thread, own, init, asOf);
      var before := AddCalls(own, init, asOf);
      hide KeyOf, DistinctKeys, OwnedBy;
      UnionStep(thread, own, init, c, before, asOf);
      assert init + [c] == saved;
    }
  }

  lemma UnionStep(thread: string, own: seq<UsageCall>, init: seq<UsageCall>, c: UsageCall, before: seq<UsageCall>,
                  asOf: Instant)
    requires OwnedBy(thread, before) && c.thread == thread && c.timestamp <= asOf
    requires DistinctKeys(before) && DistinctKeys(init + [c])
    requires KeyMap(before) == KeyMap(init) + KeyMap(own)
    ensures OwnedBy(thread, AddCall(before, c, asOf))
    ensures DistinctKeys(AddCall(before, c, asOf))
    ensures KeyMap(AddCall(before, c, asOf)) == KeyMap(init + [c]) + KeyMap(own)
  {
    hide KeyOf, DistinctKeys, KeyMap, LastAt;
    SlotIsKey(thread, before, c);
    KeyMapExtend(before, c);
    KeyMapExtend(init, c);
    DistinctPrefix(init + [c], |init|);
    assert (init + [c])[..|init|] == init;
  }

  // ----- What the overlay sees of a ledger

  /** The calls of `thread` after overlaying all sessions of `l`, given its own live calls. */
  function CallsWith(l: Tables, thread: string, own: seq<UsageCall>, asOf: Instant): seq<UsageCall> {
    if thread in l.sessions && l.sessions[thread].record.capturedAt <= asOf then
      AddCalls(own, l.sessions[thread].record.calls, asOf)
    else
      own
  }

  lemma LoadedRecords(env: Environment, l: Tables, records: seq<Record>)
    requires Loadable(env, l) && ListsSessions(env, l, records)
    ensures OneRecordPerThread(records)
  {
    hide WithinBudget, DistinctKeys, StringLe;
    forall i | 0 <= i < |records| ensures OwnsItsCalls(records[i]) {
      assert RowLoads(l, records[i].thread);
      var r := l.sessions[records[i].thread].record;
      assert forall j :: 0 <= j < |r.calls| ==> CallOk(r, r.calls[j]);
    }
  }

  lemma LoadedRecordFor(env: Environment, l: Tables, records: seq<Record>, thread: string, asOf: Instant)
    requires Loadable(env, l) && ListsSessions(env, l, records)
    ensures
      RecordFor(records, thread, asOf)
      == if thread in l.sessions && l.sessions[thread].record.capturedAt <= asOf
         then Some(Shown(env, l.sessions[thread].record)) else None
  {
    hide WithinBudget, DistinctKeys, StringLe, Valid, RecordFor;
    RecordForFacts(records, thread, asOf);
    if thread in l.sessions {
      assert RowLoads(l, thread);
      var i :| 0 <= i < |records| && records[i].thread == thread;
      assert records[i] in records;
    }
    var found := RecordFor(records, thread, asOf);
    if found.Some? {
      assert found == Some(found.value);
      var i :| 0 <= i < |records| && records[i] == found.value;
    }
  }

  lemma OverlayInThread(env: Environment, d: Rollout, l: Tables, records: seq<Record>, thread: string, asOf: Instant)
    requires Loadable(env, l) && ListsSessions(env, l, records)
    ensures CallsOf(thread, AddRecords(d.calls, records, asOf)) == CallsWith(l, thread, CallsOf(thread, d.calls), asOf)
  {
    hide Loadable, ListsSessions, OneRecordPerThread, RecordFor, CallsOf, AddRecords, AddCalls;
    LoadedRecords(env, l, records);
    LoadedRecordFor(env, l, records, thread, asOf);
    AddRecordsInThread(thread, d.calls, records, asOf);
  }

  // ----- Outcomes

  /** `l` and `after` hold the same evidence; they may differ in statuses and outcome rows. */
  ghost predicate SameEvidence(l: Tables, after: Tables) {
    && l.sessions.Keys == after.sessions.Keys
    && (forall t :: t in l.sessions ==> SameRecord(l.sessions[t].record, after.sessions[t].record))
  }

  predicate SameRecord(r: Record, later: Record) {
    later == r.(status := later.status, deletedAt := later.deletedAt)
  }

  /** Any number of outcome transactions, committed or refused. */
  ghost predicate Outcomes(env: Environment, states: seq<Tables>, steps: seq<Step>) {
    && |states| == |steps| + 1
    && (forall i :: 0 <= i < |steps| ==> !steps[i].Prepare? && Next(env, states[i], steps[i], states[i + 1]))
  }

  lemma {:induction false} OutcomesKeepEvidence(env: Environment, states: seq<Tables>, steps: seq<Step>, i: nat)
    requires Outcomes(env, states, steps) && i < |states|
    requires Consistent(env, states[0])
    ensures SameEvidence(states[0], states[i])
    ensures Consistent(env, states[i])
  {
    hide Consistent;
    if i > 0 {
      OutcomesKeepEvidence(env, states, steps, i - 1);
      assert Next(env, states[i - 1], steps[i - 1], states[i - 1 + 1]) && !steps[i - 1].Prepare?;
      StepKeepsConsistent(env, states[i - 1], steps[i - 1], states[i]);
      OutcomeKeepsEvidence(env, states[i - 1], steps[i - 1], states[i]);
    }
  }

  lemma OutcomeKeepsEvidence(env: Environment, l: Tables, step: Step, after: Tables)
    requires Next(env, l, step, after) && !step.Prepare?
    ensures SameEvidence(l, after)
  {
    hide Valid, WithinBudget;
  }

  // ----- The theorem

  /** `records` are complete captures of their threads from `d`, whatever parent the caller has put in. */
  ghost predicate Captured(shorten: string -> string, d: Rollout, records: seq<Record>) {
    forall i :: 0 <= i < |records| ==>
                  exists title, at :: IsCapture(FromDataset(shorten, records[i].thread, title, at, d), records[i])
  }

  ghost predicate IsCapture(capture: Outcome<Record, CaptureError>, r: Record) {
    capture.Success? && capture.value.(parent := r.parent) == r
  }

  lemma CapturedCalls(shorten: string -> string, d: Rollout, records: seq<Record>, i: nat)
    requires Captured(shorten, d, records) && i < |records|
    ensures records[i].calls == CallsOf(records[i].thread, d.calls)
  {
    hide Valid, CallsOf;
    var title, at :| IsCapture(FromDataset(shorten, records[i].thread, title, at, d), records[i]);
  }

  /** A member of the deletion: what the ledger now holds is exactly what was visible before. */
  lemma MemberKeepsItsCalls(env: Environment, l: Tables, incoming: Record, merged: Record, asOf: Instant)
    requires Valid(incoming) && MergesWith(env, l.sessions, incoming, merged)
    requires incoming.thread in l.sessions ==> RowLoads(l, incoming.thread)
    requires merged.capturedAt <= asOf
    ensures multiset(CallsWith(l, incoming.thread, incoming.calls, asOf)) == multiset(AddCalls([], merged.calls, asOf))
  {
    hide DistinctKeys, KeyMap, AddCalls, Sorted;
    var t := incoming.thread;
    RecordCallsFit(incoming, asOf);
    RecordCallsFit(merged, asOf);
    EmptyCalls(t);
    AddCallsIsUnion(t, [], merged.calls, asOf);
    assert KeyMap(merged.calls) + KeyMap([]) == KeyMap(merged.calls);
    if t in l.sessions {
      var previous := l.sessions[t].record;
      RecordCallsFit(previous, asOf);
      AddCallsIsUnion(t, incoming.calls, previous.calls, asOf);
    }
    KeyMapDeterminesMultiset(CallsWith(l, t, incoming.calls, asOf), AddCalls([], merged.calls, asOf));
  }

  lemma EmptyCalls(thread: string)
    ensures OwnedBy(thread, []) && DistinctKeys([]) && KeyMap([]) == map[]
  {
  }

  lemma RecordCallsFit(r: Record, asOf: Instant)
    requires Valid(r)
    ensures OwnedBy(r.thread, r.calls) && DistinctKeys(r.calls)
    ensures r.capturedAt <= asOf ==> forall i :: 0 <= i < |r.calls| ==> r.calls[i].timestamp <= asOf
  {
    hide DistinctKeys;
    assert forall i :: 0 <= i < |r.calls| ==> CallOk(r, r.calls[i]);
  }

  /** The thread's calls before the deletion and after it are the same, member or not. */
  lemma ThreadKeepsItsCalls(env: Environment, d: Rollout, before: Tables, operation: string, records: seq<Record>,
                            now: Instant, merged: seq<Record>, prepared: Tables, after: Tables, thread: string,
                            asOf: Instant)
    requires Consistent(env, before)
    requires PrepareStep(env, LEDGER_READ_BUDGET, before, operation, records, now, merged, prepared)
    requires Captured(env.shorten, d, records)
    requires SameEvidence(prepared, after)
    requires forall i :: 0 <= i < |merged| ==> merged[i].capturedAt <= asOf
    ensures multiset(CallsWith(before, thread, CallsOf(thread, d.calls), asOf))
         == multiset(CallsWith(after, thread, CallsOf(thread, DropCalls(d.calls, Threads(records))), asOf))
  {
    hide *;
    DroppedCallsOf(d.calls, Threads(records), thread);
    PreparedBatch(env, before, operation, records, now, merged, prepared);
    if thread in Threads(records) {
      var i := MemberIndex(records, thread);
      MemberCase(env, d, before, operation, records, merged, prepared, now, i, asOf);
      PreparedMemberIsShown(prepared, after, merged[i], asOf);
    } else {
      BystanderKeepsItsCalls(before, operation, Threads(records), prepared, after, thread, CallsOf(thread, d.calls),
                             asOf);
    }
  }

  lemma PreparedBatch(env: Environment, before: Tables, operation: string, records: seq<Record>, now: Instant,
                      merged: seq<Record>, prepared: Tables)
    requires PrepareStep(env, LEDGER_READ_BUDGET, before, operation, records, now, merged, prepared)
    ensures PrepareEffect(before, operation, Threads(records), prepared)
    ensures |merged| == |records|
    ensures forall i :: 0 <= i < |merged| ==> merged[i].thread == records[i].thread
  {
    hide Valid, WithinBudget, ReceiptsReadable, AllMerge, CapturesFit, PrepareEffect, Preserves;
    PrepareHasEffect(env, before, operation, records, now, merged, prepared);
    PreparedMembers(env, before, records, merged);
  }

  lemma MemberIndex(records: seq<Record>, thread: string) returns (i: nat)
    requires thread in Threads(records)
    ensures i < |records| && records[i].thread == thread
  {
    i :| 0 <= i < |records| && records[i].thread == thread;
  }

  lemma PreparedMemberIsShown(prepared: Tables, after: Tables, r: Record, asOf: Instant)
    requires SameEvidence(prepared, after)
    requires r.thread in prepared.sessions && prepared.sessions[r.thread].record == r && r.capturedAt <= asOf
    ensures CallsWith(after, r.thread, [], asOf) == AddCalls([], r.calls, asOf)
  {
    hide AddCalls;
  }

  lemma BystanderKeepsItsCalls(before: Tables, operation: string, threads: set<string>, prepared: Tables, after: Tables,
                               thread: string, own: seq<UsageCall>, asOf: Instant)
    requires PrepareEffect(before, operation, threads, prepared) && SameEvidence(prepared, after)
    requires thread !in threads
    ensures CallsWith(before, thread, own, asOf) == CallsWith(after, thread, own, asOf)
  {
    hide AddCalls, FreshRow, OutcomesEffect;
  }

  lemma MemberCase(env: Environment, d: Rollout, before: Tables, operation: string, records: seq<Record>,
                   merged: seq<Record>, prepared: Tables, now: Instant, i: nat, asOf: Instant)
    requires Consistent(env, before)
    requires PrepareStep(env, LEDGER_READ_BUDGET, before, operation, records, now, merged, prepared)
    requires Captured(env.shorten, d, records) && i < |records| == |merged|
    requires merged[i].capturedAt <= asOf
    ensures
      var thread := records[i].thread;
      && thread in prepared.sessions && prepared.sessions[thread].record == merged[i]
      && multiset(CallsWith(before, thread, CallsOf(thread, d.calls), asOf))
         == multiset(AddCalls([], merged[i].calls, asOf))
  {
    hide Valid, WithinBudget, ReceiptsReadable, MergesWith, AddCalls, CallsOf, Captured, KeyMap, RowLoads, PublishAll,
         CallsWith, Preserves;
    var incoming := Normals(env, records);
    assert incoming[i] == Normal(env, records[i]);
    CapturedCalls(env.shorten, d, records, i);
    assert Valid(incoming[i]);
    if records[i].thread in before.sessions {
      assert RowConsistent(before, records[i].thread);
    }
    MemberKeepsItsCalls(env, before, incoming[i], merged[i], asOf);
    PreparedMembers(env, before, records, merged);
    PublishedSessions(before.(operations := before.operations[operation := now]), operation, merged);
  }

  /**
   Deleting sessions does not change the calls.  Whatever the ledger held before,
   also for the deleted threads themselves, the overlaid dataset has the same
   multiset of calls before the deletion and after it.
   */
  lemma DeletionKeepsCalls(env: Environment, d: Rollout, before: Tables, operation: string, records: seq<Record>,
                           now: Instant, merged: seq<Record>, states: seq<Tables>, steps: seq<Step>,
                           shownBefore: seq<Record>, shownAfter: seq<Record>, asOf: Instant)
    requires Consistent(env, before) && ListsSessions(env, before, shownBefore)
    requires Captured(env.shorten, d, records)
    requires Outcomes(env, states, steps)
    requires PrepareStep(env, LEDGER_READ_BUDGET, before, operation, records, now, merged, states[0])
    requires ListsSessions(env, states[|steps|], shownAfter)
    requires forall i :: 0 <= i < |merged| ==> merged[i].capturedAt <= asOf
    ensures multiset(Overlaid(d, shownBefore, asOf).calls)
         == multiset(Overlaid(Drop(d, Threads(records)), shownAfter, asOf).calls)
  {
    hide Consistent, Loadable, ListsSessions, PrepareStep, Next, Overlaid, SameEvidence, CallsOf, CallsWith, AddRecords,
         DropCalls, Captured;
    var after, dropped := states[|steps|], Drop(d, Threads(records));
    StepKeepsConsistent(env, before, Prepare(operation, records, now, merged), states[0]) by {
      PrepareIsNext(env, before, operation, records, now, merged, states[0]);
    }
    OutcomesKeepEvidence(env, states, steps, |steps|);
    ConsistentIsLoadable(env, before);
    ConsistentIsLoadable(env, after);
    OverlaySort(d, shownBefore, asOf);
    OverlaySort(dropped, shownAfter, asOf);
    var s, t := AddRecords(d.calls, shownBefore, asOf), AddRecords(dropped.calls, shownAfter, asOf);
    forall thread ensures multiset(CallsOf(thread, s)) == multiset(CallsOf(thread, t)) {
      OverlayInThread(env, d, before, shownBefore, thread, asOf);
      OverlayInThread(env, dropped, after, shownAfter, thread, asOf);
      ThreadKeepsItsCalls(env, d, before, operation, records, now, merged, states[0], after, thread, asOf);
    }
    SameInEveryThread(s, t);
  }

  lemma PrepareIsNext(env: Environment, before: Tables, operation: string, records: seq<Record>, now: Instant,
                      merged: seq<Record>, after: Tables)
    requires PrepareStep(env, LEDGER_READ_BUDGET, before, operation, records, now, merged, after)
    ensures Next(env, before, Prepare(operation, records, now, merged), after)
  {
    hide PrepareStep;
  }

  /** Hence every number of every window analysis is the same before and after the deletion. */
  lemma DeletionKeepsEveryAnalysis(env: Environment, d: Rollout, before: Tables, operation: string,
                                   records: seq<Record>,
                                   now: Instant, merged: seq<Record>, states: seq<Tables>, steps: seq<Step>,
                                   shownBefore: seq<Record>, shownAfter: seq<Record>, asOf: Instant,
                                   catalog: Catalog, selected: Selected, at: Instant, settled: bool)
    requires Consistent(env, before) && ListsSessions(env, before, shownBefore)
    requires Captured(env.shorten, d, records)
    requires Outcomes(env, states, steps)
    requires PrepareStep(env, LEDGER_READ_BUDGET, before, operation, records, now, merged, states[0])
    requires ListsSessions(env, states[|steps|], shownAfter)
    requires forall i :: 0 <= i < |merged| ==> merged[i].capturedAt <= asOf
    ensures Analyze(catalog, Overlaid(d, shownBefore, asOf).calls, selected, at, settled)
         == Analyze(catalog, Overlaid(Drop(d, Threads(records)), shownAfter, asOf).calls, selected, at, settled)
  {
    hide Consistent, ListsSessions, PrepareStep, Outcomes, Overlaid, Analyze, Captured;
    DeletionKeepsCalls(env, d, before, operation, records, now, merged, states, steps, shownBefore, shownAfter, asOf);
    AnalysisIgnoresOrder(catalog, Overlaid(d, shownBefore, asOf).calls,
                         Overlaid(Drop(d, Threads(records)), shownAfter, asOf).calls, selected, at, settled);
  }

  // ----- The settled flag is the one thing that may change

  predicate IsSettledStatus(status: TaskStatus) {
    status == Idle || status == Completed || status == Interrupted || status == TaskStatus.Failed
  }

  predicate IsSettled(tasks: seq<Task>) {
    forall i :: 0 <= i < |tasks| ==> IsSettledStatus(tasks[i].status)
  }

  /** The tasks the overlay brings back: considered records of threads without a live task. */
  function Restored(tasks: seq<Task>, records: seq<Record>, asOf: Instant): seq<Task> {
    if records == [] then
      []
    else
      var init, r := Restored(tasks, records[..|records| - 1], asOf), records[|records| - 1];
      if r.capturedAt <= asOf && !HasTask(tasks, r.thread) then init + [RestoredTask(r)] else init
  }

  /** The record brings no task back, or its deletion is confirmed. */
  predicate Confirmed(tasks: seq<Task>, r: Record, asOf: Instant) {
    r.capturedAt <= asOf && !HasTask(tasks, r.thread) ==> r.status == Deleted
  }

  ghost predicate AllConfirmed(tasks: seq<Task>, records: seq<Record>, asOf: Instant) {
    forall r :: r in records ==> Confirmed(tasks, r, asOf)
  }

  lemma {:induction false} RestoredThreads(tasks: seq<Task>, records: seq<Record>, asOf: Instant, thread: string)
    requires forall i :: 0 <= i < |records| ==> records[i].thread != thread
    ensures !HasTask(Restored(tasks, records, asOf), thread)
  {
    if records != [] {
      RestoredThreads(tasks, records[..|records| - 1], asOf, thread);
    }
  }

  lemma HasTaskInEither(s: seq<Task>, t: seq<Task>, thread: string)
    ensures HasTask(s + t, thread) <==> HasTask(s, thread) || HasTask(t, thread)
  {
    if HasTask(s, thread) {
      var i :| 0 <= i < |s| && s[i].thread == thread;
      assert (s + t)[i].thread == thread;
    }
    if HasTask(t, thread) {
      var i :| 0 <= i < |t| && t[i].thread == thread;
      assert (s + t)[|s| + i].thread == thread;
    }
  }

  lemma {:induction false} OverlayAddsRestoredTasks(tasks: seq<Task>, records: seq<Record>, asOf: Instant)
    requires DistinctThreads(records)
    ensures AllTasks(tasks, records, asOf) == tasks + Restored(tasks, records, asOf)
  {
    hide HasTask;
    if records == [] {
      assert tasks + [] == tasks;
    } else {
      var init, r := records[..|records| - 1], records[|records| - 1];
      OverlayAddsRestoredTasks(tasks, init, asOf);
      RestoredThreads(tasks, init, asOf, r.thread);
      HasTaskInEither(tasks, Restored(tasks, init, asOf), r.thread);
    }
  }

  lemma {:induction false} RestoredSettled(tasks: seq<Task>, records: seq<Record>, asOf: Instant)
    ensures IsSettled(Restored(tasks, records, asOf)) <==> AllConfirmed(tasks, records, asOf)
  {
    hide HasTask, IsSettled;
    if records == [] {
      assert IsSettled([]) by { NothingIsSettled(); }
    } else {
      var init, r := records[..|records| - 1], records[|records| - 1];
      RestoredSettled(tasks, init, asOf);
      assert records == init + [r];
      var before := Restored(tasks, init, asOf);
      SettledConcat(before, [RestoredTask(r)]);
      assert AllConfirmed(tasks, records, asOf) <==> AllConfirmed(tasks, init, asOf) && Confirmed(tasks, r, asOf);
      SettledTask(RestoredTask(r));
    }
  }

  lemma NothingIsSettled()
    ensures IsSettled([])
  {
  }

  lemma SettledTask(task: Task)
    ensures IsSettled([task]) <==> IsSettledStatus(task.status)
  {
    assert [task][0] == task;
  }

  lemma SettledConcat(s: seq<Task>, t: seq<Task>)
    ensures IsSettled(s + t) <==> IsSettled(s) && IsSettled(t)
  {
    if IsSettled(s + t) {
      assert forall i :: 0 <= i < |s| ==> (s + t)[i] == s[i];
      assert forall i :: 0 <= i < |t| ==> (s + t)[|s| + i] == t[i];
    }
  }

  /**
   A restored task counts as settled only once its deletion is confirmed, so the
   overlaid tasks are settled exactly when the live ones are and every restored
   thread's record is Deleted.
   */
  lemma SettledAfterOverlay(d: Rollout, records: seq<Record>, asOf: Instant)
    requires DistinctThreads(records)
    ensures IsSettled(Overlaid(d, records, asOf).tasks)
       <==> && IsSettled(d.tasks)
            && AllConfirmed(d.tasks, records, asOf)
  {
    hide HasTask, AddRecords, AllTurns, AllConflicts, AllInteractions, ThreadTotal, TurnTotal, Sort, AllTasks,
         RetotalTurns;
    var tasks := AllTasks(d.tasks, records, asOf);
    OverlayAddsRestoredTasks(d.tasks, records, asOf);
    SettledConcat(d.tasks, Restored(d.tasks, records, asOf));
    RestoredSettled(d.tasks, records, asOf);
    RetotalKeepsStatus(tasks, Touched(records, asOf), AddRecords(d.calls, records, asOf));
  }

  lemma RetotalKeepsStatus(tasks: seq<Task>, touched: set<string>, calls: seq<UsageCall>)
    ensures IsSettled(RetotalTasks(tasks, touched, calls)) <==> IsSettled(tasks)
  {
    hide ThreadTotal, IsSettledStatus;
    var after := RetotalTasks(tasks, touched, calls);
    assert forall i :: 0 <= i < |tasks| ==> after[i].status == tasks[i].status;
  }

  /** A session whose deletion is still pending comes back unsettled: settled before the overlay, not after it. */
  lemma SettledMayBeLost(d: Rollout, r: Record, asOf: Instant)
    requires d.tasks == [] && r.status == Pending && r.capturedAt <= asOf
    ensures IsSettled(d.tasks) && !IsSettled(Overlaid(d, [r], asOf).tasks)
  {
    hide Overlaid;
    SettledAfterOverlay(d, [r], asOf);
    assert r in [r] && !Confirmed(d.tasks, r, asOf);
  }
}
