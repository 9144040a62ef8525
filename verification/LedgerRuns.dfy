/**
 Safety over every run of prepare and outcome transactions: no saved evidence is
 ever lost, every reachable ledger is self-consistent, and exactly when the
 reconciliation query can still read it.
 */
module LedgerRuns {
  import opened Time
  import opened Options
  import opened Ordering
  import opened Text
  import opened Dataset
  import opened Records
  import opened Ledger

  /** One attempted transaction; a refused one leaves the tables alone. */
  datatype Step =
    | Prepare(operation: string, records: seq<Record>, now: Instant, merged: seq<Record>)
    | SetOutcome(operation: string, thread: string, status: DeletionStatus, at: Instant)
    | Refused

  ghost predicate Next(env: Environment, l: Tables, step: Step, after: Tables) {
    match step
    case Prepare(operation, records, now, merged) =>
      PrepareStep(env, LEDGER_READ_BUDGET, l, operation, records, now, merged, after)
    case SetOutcome(operation, t, status, at) =>
      OutcomeStep(env, LEDGER_READ_BUDGET, l, operation, t, status, at, after)
    case Refused =>
      after == l
  }

  /** The tables after each step of a run that starts with an empty ledger. */
  ghost predicate Run(env: Environment, states: seq<Tables>, steps: seq<Step>) {
    && |states| == |steps| + 1
    && states[0] == EMPTY_LEDGER
    && (forall i :: 0 <= i < |steps| ==> Next(env, states[i], steps[i], states[i + 1]))
  }

  // ----- Self-consistency

  /** The row of `t` belongs to a known operation whose outcome says what the record says, and when. */
  ghost predicate RowConsistent(l: Tables, t: string) {
    && RowLoads(l, t)
    && var s := l.sessions[t];
    && s.operation != "" && ByteLength(s.operation) <= 256
    && s.operation in l.operations
    && (s.operation, t) in l.outcomes
    && l.outcomes[(s.operation, t)].status == s.record.status
    && s.record.deletedAt == (if s.record.status == Deleted then Some(l.outcomes[(s.operation, t)].at) else None)
  }

  ghost predicate Consistent(env: Environment, l: Tables) {
    && WithinBudget(env, l, LEDGER_READ_BUDGET)
    && (forall t :: t in l.sessions ==> RowConsistent(l, t))
    && (forall k :: k in l.outcomes ==> k.0 in l.operations)
  }

  lemma MergedMemberFacts(env: Environment, l: Tables, incoming: Record, merged: Record)
    requires Valid(incoming) && MergesWith(env, l.sessions, incoming, merged)
    ensures Valid(merged) && merged.thread == incoming.thread
    ensures merged.status == incoming.status && merged.deletedAt == incoming.deletedAt
    ensures incoming.thread in l.sessions ==> Preserves(l.sessions[incoming.thread].record, merged)
  {
    hide Valid, Preserves;
    if incoming.thread in l.sessions {
      MergePreservesBoth(l.sessions[incoming.thread].record, incoming, merged);
    }
  }

  lemma PreparedMembers(env: Environment, l: Tables, records: seq<Record>, merged: seq<Record>)
    requires DistinctThreads(records) && CapturesFit(env, Normals(env, records))
    requires AllMerge(env, l.sessions, Normals(env, records), merged)
    ensures |merged| == |records| && DistinctThreads(merged) && Threads(merged) == Threads(records)
    ensures forall i :: 0 <= i < |merged| ==>
                          && Valid(merged[i]) && merged[i].thread == records[i].thread
                          && merged[i].status == Pending && merged[i].deletedAt == None
                          && (merged[i].thread in l.sessions ==>
                              Preserves(l.sessions[merged[i].thread].record, merged[i]))
  {
    hide Valid, Preserves, MergesWith;
    var incoming := Normals(env, records);
    forall i | 0 <= i < |merged|
      ensures && Valid(merged[i]) && merged[i].thread == records[i].thread
              && merged[i].status == Pending && merged[i].deletedAt == None
              && (merged[i].thread in l.sessions ==> Preserves(l.sessions[merged[i].thread].record, merged[i]))
    {
      assert Valid(incoming[i]);
      MergedMemberFacts(env, l, incoming[i], merged[i]);
    }
  }

  /** Everything the run theorems need to know about a committed prepare. */
  ghost predicate PrepareEffect(l: Tables, operation: string, threads: set<string>, after: Tables) {
    && operation !in l.operations
    && operation != "" && ByteLength(operation) <= 256
    && after.operations.Keys == l.operations.Keys + {operation}
    && SessionsEffect(l, operation, threads, after)
    && OutcomesEffect(l, operation, threads, after)
  }

  ghost predicate SessionsEffect(l: Tables, operation: string, threads: set<string>, after: Tables) {
    && after.sessions.Keys == l.sessions.Keys + threads
    && (forall t :: t in threads ==> FreshRow(l, operation, t, after))
    && (forall t :: t in l.sessions && t !in threads ==> after.sessions[t] == l.sessions[t])
  }

  ghost predicate OutcomesEffect(l: Tables, operation: string, threads: set<string>, after: Tables) {
    && after.outcomes.Keys == l.outcomes.Keys + (set t | t in threads :: (operation, t))
    && (forall k :: k in l.outcomes && k.0 != operation ==> after.outcomes[k] == l.outcomes[k])
  }

  ghost predicate FreshRow(l: Tables, operation: string, t: string, after: Tables) {
    && t in after.sessions
    && after.sessions[t].operation == operation
    && after.sessions[t].record.thread == t && Valid(after.sessions[t].record)
    && after.sessions[t].record.status == Pending && after.sessions[t].record.deletedAt == None
    && (operation, t) in after.outcomes
    && after.outcomes[(operation, t)] == MemberOutcome(Pending, after.sessions[t].record.capturedAt)
    && (t in l.sessions ==> Preserves(l.sessions[t].record, after.sessions[t].record))
  }

  lemma PrepareHasEffect(env: Environment, l: Tables, operation: string, records: seq<Record>, now: Instant,
                         merged: seq<Record>, after: Tables)
    requires PrepareStep(env, LEDGER_READ_BUDGET, l, operation, records, now, merged, after)
    ensures PrepareEffect(l, operation, Threads(records), after)
  {
    hide Valid, Preserves, AllMerge, CapturesFit, WithinBudget, ReceiptsReadable, SessionsEffect, OutcomesEffect;
    var started := l.(operations := l.operations[operation := now]);
    PreparedMembers(env, l, records, merged);
    PublishedSessions(started, operation, merged);
    PublicationHasEffect(l, operation, started, merged);
  }

  lemma PublicationHasEffect(l: Tables, operation: string, started: Tables, merged: seq<Record>)
    requires started == l.(operations := started.operations)
    requires DistinctThreads(merged)
    requires forall i :: 0 <= i < |merged| ==>
                           && Valid(merged[i]) && merged[i].status == Pending && merged[i].deletedAt == None
                           && (merged[i].thread in l.sessions ==>
                               Preserves(l.sessions[merged[i].thread].record, merged[i]))
    ensures SessionsEffect(l, operation, Threads(merged), PublishAll(started, operation, merged))
    ensures OutcomesEffect(l, operation, Threads(merged), PublishAll(started, operation, merged))
  {
    hide Valid, Preserves, FreshRow, PublishAll;
    var after := PublishAll(started, operation, merged);
    PublishedSessions(started, operation, merged);
    PublishedOutcomes(started, operation, merged);
    forall t | t in Threads(merged) ensures FreshRow(l, operation, t, after) {
      var i :| 0 <= i < |merged| && merged[i].thread == t;
      PublishedOutcomeAt(started, operation, merged, i);
      PublishedRowIsFresh(l, operation, merged[i], after);
    }
  }

  lemma PublishedRowIsFresh(l: Tables, operation: string, r: Record, after: Tables)
    requires Valid(r) && r.status == Pending && r.deletedAt == None
    requires r.thread in l.sessions ==> Preserves(l.sessions[r.thread].record, r)
    requires r.thread in after.sessions && after.sessions[r.thread] == Session(operation, r)
    requires (operation, r.thread) in after.outcomes
    requires after.outcomes[(operation, r.thread)] == MemberOutcome(Pending, r.capturedAt)
    ensures FreshRow(l, operation, r.thread, after)
  {
    hide Valid, Preserves;
  }

  lemma PrepareKeepsConsistent(env: Environment, l: Tables, operation: string, threads: set<string>, after: Tables)
    requires Consistent(env, l) && PrepareEffect(l, operation, threads, after)
    requires WithinBudget(env, after, LEDGER_READ_BUDGET)
    ensures Consistent(env, after)
  {
    hide Valid, Preserves, WithinBudget;
    forall t | t in after.sessions ensures RowConsistent(after, t) {
      if t in threads {
        assert FreshRow(l, operation, t, after);
      } else {
        assert RowConsistent(l, t);
      }
    }
  }

  lemma OutcomeKeepsConsistent(env: Environment, l: Tables, operation: string, thread: string, status: DeletionStatus,
                               at: Instant, after: Tables)
    requires Consistent(env, l)
    requires OutcomeStep(env, LEDGER_READ_BUDGET, l, operation, thread, status, at, after)
    ensures Consistent(env, after)
  {
    hide Valid, WithinBudget;
    assert RowConsistent(l, thread);
    forall t | t in after.sessions ensures RowConsistent(after, t) {
      if t != thread {
        assert RowConsistent(l, t);
        assert (after.sessions[t].operation, t) != (operation, thread);
      }
    }
  }

  lemma StepKeepsConsistent(env: Environment, l: Tables, step: Step, after: Tables)
    requires Consistent(env, l) && Next(env, l, step, after)
    ensures Consistent(env, after)
  {
    hide Consistent, WithinBudget, PrepareEffect;
    match step
    case Prepare(operation, records, now, merged) =>
      PrepareHasEffect(env, l, operation, records, now, merged, after);
      PrepareKeepsConsistent(env, l, operation, Threads(records), after);
    case SetOutcome(operation, t, status, at) =>
      OutcomeKeepsConsistent(env, l, operation, t, status, at, after);
    case Refused =>
  }

  lemma EmptyIsConsistent(env: Environment)
    ensures Consistent(env, EMPTY_LEDGER)
  {
    EmptyTotal(env, map[]);
  }

  /** Every reachable ledger is self-consistent, and all of it can be loaded. */
  lemma {:induction false} ReachableLedgerIsConsistent(env: Environment, states: seq<Tables>, steps: seq<Step>, i: nat)
    requires Run(env, states, steps) && i < |states|
    ensures Consistent(env, states[i])
    ensures Loadable(env, states[i])
  {
    hide Next, Consistent, Loadable;
    if i == 0 {
      EmptyIsConsistent(env);
    } else {
      ReachableLedgerIsConsistent(env, states, steps, i - 1);
      assert Next(env, states[i - 1], steps[i - 1], states[i - 1 + 1]);
      StepKeepsConsistent(env, states[i - 1], steps[i - 1], states[i]);
    }
    ConsistentIsLoadable(env, states[i]);
  }

  /** The receipts of a consistent ledger name exactly the members whose outcome is neither deleted nor failed. */
  lemma ReceiptsByOutcome(env: Environment, l: Tables, receipts: seq<Receipt>, t: string)
    requires Consistent(env, l) && ListsUnresolved(l, receipts) && t in l.sessions
    ensures
      var operation := l.sessions[t].operation;
      && (operation, t) in l.outcomes
      && (Receipt(operation, t) in receipts <==>
          l.outcomes[(operation, t)].status != Deleted && l.outcomes[(operation, t)].status != FailedDeletion)
  {
    hide Valid, WithinBudget, OrderedReceipts;
    assert RowConsistent(l, t);
  }

  lemma ConsistentIsLoadable(env: Environment, l: Tables)
    requires Consistent(env, l)
    ensures Loadable(env, l)
  {
    hide RowLoads, WithinBudget;
    forall t | t in l.sessions ensures RowLoads(l, t) {
      assert RowConsistent(l, t);
    }
  }

  // ----- No saved evidence is lost

  /** Every session of `l` is still in `after` with all of its evidence. */
  ghost predicate KeepsEvidence(l: Tables, after: Tables) {
    forall t :: t in l.sessions ==>
                  t in after.sessions && Preserves(l.sessions[t].record, after.sessions[t].record)
  }

  lemma PreservesTransitive(a: Record, b: Record, c: Record)
    requires Preserves(a, b) && Preserves(b, c)
    ensures Preserves(a, c)
  {
    hide HasTurn;
    forall t | t in a.turns ensures HasTurn(c.turns, t.turnId) {
      assert HasTurn(b.turns, t.turnId);
      HasTurnIsKept(b, c, t.turnId);
    }
  }

  lemma HasTurnIsKept(b: Record, c: Record, turnId: string)
    requires Preserves(b, c) && HasTurn(b.turns, turnId)
    ensures HasTurn(c.turns, turnId)
  {
    var i :| 0 <= i < |b.turns| && b.turns[i].turnId == turnId;
    assert b.turns[i] in b.turns;
  }

  lemma PreservesResolved(r: Record, status: DeletionStatus, at: Instant)
    ensures Preserves(r, Resolved(r, status, at)) && Preserves(r, r)
  {
    forall t | t in r.turns ensures HasTurn(r.turns, t.turnId) {
      var i :| 0 <= i < |r.turns| && r.turns[i] == t;
    }
  }

  lemma StepKeepsEvidence(env: Environment, l: Tables, step: Step, after: Tables)
    requires Next(env, l, step, after)
    ensures KeepsEvidence(l, after)
  {
    hide Preserves, PrepareStep, Valid, WithinBudget;
    match step
    case Prepare(operation, records, now, merged) =>
      PrepareHasEffect(env, l, operation, records, now, merged, after);
      forall t | t in l.sessions
        ensures t in after.sessions && Preserves(l.sessions[t].record, after.sessions[t].record)
      {
        if t in Threads(records) {
          assert FreshRow(l, operation, t, after);
        } else {
          PreservesResolved(l.sessions[t].record, Pending, 0);
        }
      }
    case SetOutcome(operation, thread, status, at) =>
      forall t | t in l.sessions ensures Preserves(l.sessions[t].record, after.sessions[t].record) {
        PreservesResolved(l.sessions[t].record, status, at);
      }
    case Refused =>
      forall t | t in l.sessions ensures Preserves(l.sessions[t].record, after.sessions[t].record) {
        PreservesResolved(l.sessions[t].record, Pending, 0);
      }
  }

  /**
   Over every run: a usage event or agent edge once saved is there, unaltered, in every
   later ledger, so is every turn id, and no capture time moves back.  A turn saved again
   under its id replaces the earlier one.
   */
  lemma {:induction false} RunKeepsEvidence(env: Environment, states: seq<Tables>, steps: seq<Step>, i: nat, j: nat)
    requires Run(env, states, steps) && i <= j < |states|
    ensures KeepsEvidence(states[i], states[j])
    decreases j
  {
    hide Preserves, Next;
    if i == j {
      forall t | t in states[i].sessions ensures Preserves(states[i].sessions[t].record, states[i].sessions[t].record) {
        PreservesResolved(states[i].sessions[t].record, Pending, 0);
      }
    } else {
      RunKeepsEvidence(env, states, steps, i, j - 1);
      assert Next(env, states[j - 1], steps[j - 1], states[j - 1 + 1]);
      StepKeepsEvidence(env, states[j - 1], steps[j - 1], states[j]);
      forall t | t in states[i].sessions
        ensures t in states[j].sessions && Preserves(states[i].sessions[t].record, states[j].sessions[t].record)
      {
        PreservesTransitive(states[i].sessions[t].record, states[j - 1].sessions[t].record,
                            states[j].sessions[t].record);
      }
    }
  }

  // ----- Outcomes of superseded operations

  /** The outcome row `k` exists and does not belong to its thread's current operation. */
  ghost predicate Superseded(l: Tables, k: (string, string)) {
    k in l.outcomes && k.1 in l.sessions && l.sessions[k.1].operation != k.0
  }

  lemma StepFreezesSuperseded(env: Environment, l: Tables, step: Step, after: Tables, k: (string, string))
    requires Consistent(env, l) && Next(env, l, step, after) && Superseded(l, k)
    ensures Superseded(after, k) && after.outcomes[k] == l.outcomes[k]
  {
    hide PrepareStep, Valid, WithinBudget, Preserves;
    if step.Prepare? {
      PrepareHasEffect(env, l, step.operation, step.records, step.now, step.merged, after);
      assert k.0 in l.operations;
      if k.1 in Threads(step.records) {
        assert FreshRow(l, step.operation, k.1, after);
      }
    }
  }

  /** A later attempt never rewrites the recorded outcome of an earlier one. */
  lemma {:induction false} RunFreezesSuperseded(env: Environment, states: seq<Tables>, steps: seq<Step>, i: nat, j: nat,
                                                k: (string, string))
    requires Run(env, states, steps) && i <= j < |states|
    requires Superseded(states[i], k)
    ensures Superseded(states[j], k) && states[j].outcomes[k] == states[i].outcomes[k]
    decreases j
  {
    hide Next, Consistent;
    if i < j {
      RunFreezesSuperseded(env, states, steps, i, j - 1, k);
      ReachableLedgerIsConsistent(env, states, steps, j - 1);
      assert Next(env, states[j - 1], steps[j - 1], states[j - 1 + 1]);
      StepFreezesSuperseded(env, states[j - 1], steps[j - 1], states[j], k);
    }
  }

  // ----- When the reconciliation query can read the ledger

  ghost predicate ControlFreeIds(l: Tables) {
    forall t :: t in l.sessions ==> !HasControl(l.sessions[t].operation)
  }

  /**
   A reachable ledger can be reconciled exactly when no current operation id holds
   a control character and at most 512 members are unresolved.  Preparing checks
   neither the characters of the id nor later outcome changes.
   */
  lemma ReceiptsReadableExactly(env: Environment, states: seq<Tables>, steps: seq<Step>, i: nat)
    requires Run(env, states, steps) && i < |states|
    ensures ReceiptsReadable(env, states[i])
       <==> ControlFreeIds(states[i]) && |UnresolvedThreads(states[i])| <= MAX_PENDING_RECEIPTS
  {
    hide RowLoads, WithinBudget, Next, HasControl;
    ReachableLedgerIsConsistent(env, states, steps, i);
    var l := states[i];
    forall t | t in l.sessions
      ensures RowReconciles(l, t) <==> !HasControl(l.sessions[t].operation)
    {
      assert RowConsistent(l, t);
    }
  }

  lemma PrepareStaysWithinPendingBudget(env: Environment, l: Tables, operation: string, records: seq<Record>,
                                        now: Instant,
                                        merged: seq<Record>, after: Tables)
    requires PrepareStep(env, LEDGER_READ_BUDGET, l, operation, records, now, merged, after)
    ensures |UnresolvedThreads(after)| <= MAX_PENDING_RECEIPTS
  {
    hide Valid, Preserves, WithinBudget, ReceiptsReadable, BatchOk, AllMerge, FreshRow;
    PrepareHasEffect(env, l, operation, records, now, merged, after);
    assert UnresolvedThreads(after) <= UnresolvedThreads(l) + Threads(records);
    SubsetSize(UnresolvedThreads(after), UnresolvedThreads(l) + Threads(records));
  }

  /** The step reports something unresolved about a resolved member while the budget is used up. */
  ghost predicate ReopensFull(l: Tables, step: Step) {
    && step.SetOutcome? && Unresolved(step.status)
    && step.thread !in UnresolvedThreads(l) && |UnresolvedThreads(l)| == MAX_PENDING_RECEIPTS
  }

  lemma OutcomeAndPendingBudget(l: Tables, operation: string, t: string, status: DeletionStatus, at: Instant)
    requires t in l.sessions && |UnresolvedThreads(l)| <= MAX_PENDING_RECEIPTS
    ensures |UnresolvedThreads(WithOutcome(l, operation, t, status, at))| <= MAX_PENDING_RECEIPTS
       <==> !ReopensFull(l, SetOutcome(operation, t, status, at))
  {
    var before, after := UnresolvedThreads(l), UnresolvedThreads(WithOutcome(l, operation, t, status, at));
    if Unresolved(status) && t !in before {
      assert after == before + {t};
    } else {
      SubsetSize(after, before);
    }
  }

  /** From a ledger within the budget, only such a step leaves it. */
  lemma StepAndPendingBudget(env: Environment, l: Tables, step: Step, after: Tables)
    requires Next(env, l, step, after) && |UnresolvedThreads(l)| <= MAX_PENDING_RECEIPTS
    ensures |UnresolvedThreads(after)| <= MAX_PENDING_RECEIPTS <==> !ReopensFull(l, step)
  {
    hide PrepareStep, Valid, WithinBudget, UnresolvedThreads, Unresolved;
    match step
    case Prepare(operation, records, now, merged) =>
      PrepareStaysWithinPendingBudget(env, l, operation, records, now, merged, after);
    case SetOutcome(operation, t, status, at) =>
      OutcomeAndPendingBudget(l, operation, t, status, at);
    case Refused =>
  }

  /** A run keeps the unresolved members within the budget exactly if no step reopens a member of a full ledger. */
  lemma {:induction false} PendingBudgetHolds(env: Environment, states: seq<Tables>, steps: seq<Step>, n: nat)
    requires Run(env, states, steps) && n < |states|
    ensures (forall i :: 0 <= i <= n ==> |UnresolvedThreads(states[i])| <= MAX_PENDING_RECEIPTS)
       <==> (forall j :: 0 <= j < n ==> !ReopensFull(states[j], steps[j]))
  {
    hide Next, ReopensFull, UnresolvedThreads;
    if n == 0 {
      assert UnresolvedThreads(EMPTY_LEDGER) == {} by { NothingUnresolved(); }
    } else {
      PendingBudgetHolds(env, states, steps, n - 1);
      assert Next(env, states[n - 1], steps[n - 1], states[n - 1 + 1]);
      if |UnresolvedThreads(states[n - 1])| <= MAX_PENDING_RECEIPTS {
        StepAndPendingBudget(env, states[n - 1], steps[n - 1], states[n]);
      }
    }
  }

  lemma NothingUnresolved()
    ensures UnresolvedThreads(EMPTY_LEDGER) == {}
  {
  }

  /** Reopening a resolved member of a full ledger makes the receipts unreadable. */
  lemma ReopeningOverflows(env: Environment, l: Tables, step: Step, after: Tables)
    requires Next(env, l, step, after) && ReopensFull(l, step)
    ensures !ReceiptsReadable(env, after)
  {
    hide Next, RowReconciles, WithinBudget;
    StepAndPendingBudget(env, l, step, after);
  }

  lemma StepKeepsBadId(env: Environment, l: Tables, step: Step, after: Tables, t: string)
    requires Next(env, l, step, after)
    requires t in l.sessions && HasControl(l.sessions[t].operation)
    ensures t in after.sessions && after.sessions[t].operation == l.sessions[t].operation
    ensures !step.Prepare?
  {
    hide Valid, WithinBudget, BatchOk, AllMerge, ReceiptsReadable;
    BadIdIsUnreadable(env, l, t);
  }

  lemma BadIdIsUnreadable(env: Environment, l: Tables, t: string)
    requires t in l.sessions && HasControl(l.sessions[t].operation)
    ensures !ReceiptsReadable(env, l)
  {
    hide RowLoads, WithinBudget, HasControl;
    assert !RowReconciles(l, t);
  }

  /**
   An operation id with a control character is accepted once and wedges the ledger
   for good: the query fails in every later state, so no later prepare commits.
   */
  lemma {:induction false} ControlCharacterWedges(env: Environment, states: seq<Tables>, steps: seq<Step>, i: nat,
                                                  j: nat,
                                                  t: string)
    requires Run(env, states, steps) && i <= j < |states|
    requires t in states[i].sessions && HasControl(states[i].sessions[t].operation)
    ensures t in states[j].sessions && states[j].sessions[t].operation == states[i].sessions[t].operation
    ensures !ReceiptsReadable(env, states[j])
    ensures j < |steps| ==> !steps[j].Prepare?
    decreases j
  {
    hide Next, ReceiptsReadable, HasControl;
    if i < j {
      ControlCharacterWedges(env, states, steps, i, j - 1, t);
      assert Next(env, states[j - 1], steps[j - 1], states[j - 1 + 1]);
      StepKeepsBadId(env, states[j - 1], steps[j - 1], states[j], t);
    }
    BadIdIsUnreadable(env, states[j], t);
    if j < |steps| {
      StepKeepsBadId(env, states[j], steps[j], states[j + 1], t);
    }
  }
}
