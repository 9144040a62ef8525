/** Laws of the overlay. */
module OverlayLaws {
  import opened Time
  import opened Options
  import opened Ordering
  import opened Dataset
  import opened Records
  import opened Overlay

  // ----- What the calls are

  lemma {:induction false} LastAtFacts(calls: seq<UsageCall>, slot: Slot)
    ensures LastAt(calls, slot).Some? <==> exists c :: c in calls && SlotOf(c) == slot
    ensures LastAt(calls, slot).Some? ==>
              LastAt(calls, slot).value in calls && SlotOf(LastAt(calls, slot).value) == slot
  {
    if calls != [] {
      LastAtFacts(calls[..|calls| - 1], slot);
      assert calls == calls[..|calls| - 1] + [calls[|calls| - 1]];
    }
  }

  lemma LastAtExtend(calls: seq<UsageCall>, c: UsageCall, slot: Slot)
    ensures LastAt(calls + [c], slot) == if SlotOf(c) == slot then Some(c) else LastAt(calls, slot)
  {
    assert (calls + [c])[..|calls|] == calls;
  }

  /** Some live or added call occupies the slot. */
  /** A live and a saved call meet in one slot exactly if they are the same event of the same thread. */
  lemma SlotIsEvent(a: UsageCall, b: UsageCall)
    ensures SlotOf(a) == SlotOf(b) <==> a.thread == b.thread && SameEvent(a, b)
  {
    hide KeyOf, SameEvent;
    KeyIsEvent(a, b);
  }

  ghost predicate Holds(calls: seq<UsageCall>, slot: Slot) {
    LastAt(calls, slot).Some?
  }

  ghost predicate DistinctSlots(calls: seq<UsageCall>) {
    forall i, j :: 0 <= i < j < |calls| ==> SlotOf(calls[i]) != SlotOf(calls[j])
  }

  /**
   `after` extends `before` by new calls only: they are all from `saved`, each in a
   slot of its own that `before` did not hold.
   */
  ghost predicate Extends(before: seq<UsageCall>, after: seq<UsageCall>) {
    && before <= after
    && DistinctSlots(after[|before|..])
    && (forall i :: |before| <= i < |after| ==> !Holds(before, SlotOf(after[i])))
  }

  lemma ExtendsByOne(before: seq<UsageCall>, after: seq<UsageCall>, c: UsageCall)
    requires Extends(before, after) && !Holds(after, SlotOf(c))
    ensures Extends(before, after + [c])
  {
    LastAtFacts(after, SlotOf(c));
    LastAtFacts(before, SlotOf(c));
    assert forall i :: 0 <= i < |after| ==> after[i] in after && SlotOf(after[i]) != SlotOf(c);
    assert (after + [c])[|before|..] == after[|before|..] + [c];
    assert forall i :: 0 <= i < |before| ==> before[i] == after[i];
  }

  lemma HoldsIsMonotone(before: seq<UsageCall>, after: seq<UsageCall>, slot: Slot)
    requires before <= after && Holds(before, slot)
    ensures Holds(after, slot)
  {
    LastAtFacts(before, slot);
    LastAtFacts(after, slot);
    var c :| c in before && SlotOf(c) == slot;
    assert c in after;
  }

  lemma {:induction false} AddCallsExtends(base: seq<UsageCall>, calls: seq<UsageCall>, saved: seq<UsageCall>,
                                           asOf: Instant)
    requires Extends(base, calls)
    ensures Extends(base, AddCalls(calls, saved, asOf))
    ensures calls <= AddCalls(calls, saved, asOf)
    ensures forall i :: 0 <= i < |saved| && saved[i].timestamp <= asOf ==>
              Holds(AddCalls(calls, saved, asOf), SlotOf(saved[i]))
  {
    hide Extends, Holds, SlotOf;
    if saved != [] {
      var init, c := saved[..|saved| - 1], saved[|saved| - 1];
      AddCallsExtends(base, calls, init, asOf);
      var before, after := AddCalls(calls, init, asOf), AddCalls(calls, saved, asOf);
      AddCallExtends(base, before, c, asOf);
      assert after == AddCall(before, c, asOf);
      forall i | 0 <= i < |saved| && saved[i].timestamp <= asOf ensures Holds(after, SlotOf(saved[i])) {
        if i < |init| {
          assert init[i] == saved[i];
          HoldsIsMonotone(before, after, SlotOf(saved[i]));
        }
      }
    }
  }

  lemma AddCallExtends(base: seq<UsageCall>, before: seq<UsageCall>, c: UsageCall, asOf: Instant)
    requires Extends(base, before)
    ensures Extends(base, AddCall(before, c, asOf)) && before <= AddCall(before, c, asOf)
    ensures c.timestamp <= asOf ==> Holds(AddCall(before, c, asOf), SlotOf(c))
  {
    hide Extends;
    if c.timestamp <= asOf && LastAt(before, SlotOf(c)).None? {
      ExtendsByOne(base, before, c);
      LastAtExtend(before, c, SlotOf(c));
    }
  }

  lemma ExtendsItself(calls: seq<UsageCall>)
    ensures Extends(calls, calls)
  {
  }

  /** The saved call is one the overlay considers. */
  ghost predicate Offered(records: seq<Record>, asOf: Instant, c: UsageCall) {
    exists i :: 0 <= i < |records| && records[i].capturedAt <= asOf && c in records[i].calls && c.timestamp <= asOf
  }

  /**
   The overlay keeps all live calls in place, adds each missing saved slot exactly
   once, and leaves no offered slot out.
   */
  lemma {:induction false} AddRecordsExtends(calls: seq<UsageCall>, records: seq<Record>, asOf: Instant)
    ensures Extends(calls, AddRecords(calls, records, asOf))
    ensures forall c :: Offered(records, asOf, c) ==> Holds(AddRecords(calls, records, asOf), SlotOf(c))
  {
    hide Extends, Holds, SlotOf;
    if records == [] {
      ExtendsItself(calls);
    } else {
      var init, r := records[..|records| - 1], records[|records| - 1];
      AddRecordsExtends(calls, init, asOf);
      var before, after := AddRecords(calls, init, asOf), AddRecords(calls, records, asOf);
      if r.capturedAt <= asOf {
        AddCallsExtends(calls, before, r.calls, asOf);
      }
      forall c | Offered(records, asOf, c) ensures Holds(after, SlotOf(c)) {
        OfferedByLast(records, asOf, c);
        if Offered(init, asOf, c) {
          HoldsIsMonotone(before, after, SlotOf(c));
        } else {
          var i :| 0 <= i < |r.calls| && r.calls[i] == c;
          assert Holds(after, SlotOf(r.calls[i]));
        }
      }
    }
  }

  lemma OfferedByLast(records: seq<Record>, asOf: Instant, c: UsageCall)
    requires records != [] && Offered(records, asOf, c)
    ensures
      var r := records[|records| - 1];
      || Offered(records[..|records| - 1], asOf, c)
      || (r.capturedAt <= asOf && c in r.calls && c.timestamp <= asOf)
  {
    var i :| 0 <= i < |records| && records[i].capturedAt <= asOf && c in records[i].calls && c.timestamp <= asOf;
    if i < |records| - 1 {
      assert records[..|records| - 1][i] == records[i];
    }
  }

  /** The overlaid calls are the live ones plus the added ones, in time order. */
  lemma OverlayKeepsLiveCalls(d: Rollout, records: seq<Record>, asOf: Instant)
    ensures
      var after := Overlaid(d, records, asOf).calls;
      var all := AddRecords(d.calls, records, asOf);
      && Sorted(TimeLe, after)
      && d.calls <= all
      && multiset(after) == multiset(d.calls) + multiset(all[|d.calls|..])
      && Extends(d.calls, all)
  {
    hide Extends, RetotalTasks, RetotalTurns, AllTasks, AllTurns, AddRecords, AllConflicts, Touched, AllInteractions,
         Sort, TimeLe;
    TimeLeIsTotalPreorder();
    var all := AddRecords(d.calls, records, asOf);
    SortFacts(TimeLe, all);
    AddRecordsExtends(d.calls, records, asOf);
    ExtendsIsPrefix(d.calls, all);
    assert all == d.calls + all[|d.calls|..];
  }

  /** The overlaid calls are in time order, and those of one moment in the order of their threads. */
  lemma OverlayInTimeOrder(d: Rollout, records: seq<Record>, asOf: Instant, i: nat, j: nat)
    requires i < j < |Overlaid(d, records, asOf).calls|
    ensures
      var a, b := Overlaid(d, records, asOf).calls[i], Overlaid(d, records, asOf).calls[j];
      a.timestamp < b.timestamp || (a.timestamp == b.timestamp && Lexicographic(a.thread, b.thread))
  {
    hide Overlaid, Lexicographic, Extends, AddRecords;
    OverlayKeepsLiveCalls(d, records, asOf);
    var calls := Overlaid(d, records, asOf).calls;
    assert TimeLe(calls[i], calls[j]);
    StringLeIsLexicographic(calls[i].thread, calls[j].thread);
  }

  lemma ExtendsIsPrefix(before: seq<UsageCall>, after: seq<UsageCall>)
    requires Extends(before, after)
    ensures before <= after
  {
  }

  // ----- Totals

  lemma RetotalIgnoresOrder(tasks: seq<Task>, turns: seq<Turn>, touched: set<string>, s: seq<UsageCall>,
                            t: seq<UsageCall>)
    requires multiset(s) == multiset(t)
    ensures RetotalTasks(tasks, touched, s) == RetotalTasks(tasks, touched, t)
    ensures RetotalTurns(turns, touched, s) == RetotalTurns(turns, touched, t)
  {
    hide ThreadTotal, TurnTotal;
    forall i | 0 <= i < |tasks| ensures RetotalTask(tasks[i], touched, s) == RetotalTask(tasks[i], touched, t) {
      TotalsIgnoreOrder(s, t, tasks[i].thread, "");
    }
    forall i | 0 <= i < |turns| ensures RetotalTurn(turns[i], touched, s) == RetotalTurn(turns[i], touched, t) {
      TotalsIgnoreOrder(s, t, turns[i].thread, turns[i].turnId);
    }
  }

  lemma OverlaySort(d: Rollout, records: seq<Record>, asOf: Instant)
    ensures
      var after := Overlaid(d, records, asOf);
      && Sorted(TimeLe, after.calls)
      && multiset(after.calls) == multiset(AddRecords(d.calls, records, asOf))
      && after.tasks == RetotalTasks(AllTasks(d.tasks, records, asOf), Touched(records, asOf), after.calls)
      && after.turns == RetotalTurns(AllTurns(d.turns, records, asOf), Touched(records, asOf), after.calls)
  {
    hide RetotalTasks, RetotalTurns, AllTasks, AllTurns, AddRecords, AllConflicts, Touched, AllInteractions;
    var calls := AddRecords(d.calls, records, asOf);
    TimeLeIsTotalPreorder();
    SortFacts(TimeLe, calls);
    RetotalIgnoresOrder(AllTasks(d.tasks, records, asOf), AllTurns(d.turns, records, asOf), Touched(records, asOf),
                        calls, Sort(TimeLe, calls));
  }

  /** Each touched task and turn total is the sum of its calls; everything untouched is left alone. */
  lemma OverlayTotals(d: Rollout, records: seq<Record>, asOf: Instant)
    ensures
      var after, touched := Overlaid(d, records, asOf), Touched(records, asOf);
      && |after.tasks| >= |d.tasks| && |after.turns| >= |d.turns|
      && (forall i :: 0 <= i < |after.tasks| && after.tasks[i].thread in touched ==>
                        after.tasks[i].tokenUsage == ThreadTotal(after.calls, after.tasks[i].thread))
      && (forall i :: 0 <= i < |after.turns| && after.turns[i].thread in touched ==>
                        after.turns[i].tokenUsage
                          == TurnTotal(after.calls, after.turns[i].thread, after.turns[i].turnId))
      && (forall i :: 0 <= i < |d.tasks| && d.tasks[i].thread !in touched ==> after.tasks[i] == d.tasks[i])
      && (forall i :: 0 <= i < |d.turns| && d.turns[i].thread !in touched ==> after.turns[i] == d.turns[i])
  {
    hide Overlaid, ThreadTotal, TurnTotal, AllTasks, AllTurns, Touched;
    OverlaySort(d, records, asOf);
    AllTasksExtends(d.tasks, records, asOf);
    AllTurnsExtends(d.turns, records, asOf);
  }

  lemma {:induction false} AllTasksExtends(tasks: seq<Task>, records: seq<Record>, asOf: Instant)
    ensures tasks <= AllTasks(tasks, records, asOf)
    ensures forall r :: r in records && r.capturedAt <= asOf ==> HasTask(AllTasks(tasks, records, asOf), r.thread)
  {
    if records != [] {
      var init, r := records[..|records| - 1], records[|records| - 1];
      AllTasksExtends(tasks, init, asOf);
      var before, after := AllTasks(tasks, init, asOf), AllTasks(tasks, records, asOf);
      assert before <= after;
      assert records == init + [r];
      forall r' | r' in records && r'.capturedAt <= asOf ensures HasTask(after, r'.thread) {
        if HasTask(before, r'.thread) {
          var i :| 0 <= i < |before| && before[i].thread == r'.thread;
          assert after[i].thread == r'.thread;
        } else {
          assert after[|after| - 1].thread == r'.thread;
        }
      }
    }
  }

  lemma {:induction false} AddTurnsExtends(turns: seq<Turn>, thread: string, saved: seq<DeletedTurn>)
    ensures turns <= AddTurns(turns, thread, saved)
    ensures forall t :: t in saved ==> HasLiveTurn(AddTurns(turns, thread, saved), thread, t.turnId)
  {
    if saved != [] {
      var init, t := saved[..|saved| - 1], saved[|saved| - 1];
      AddTurnsExtends(turns, thread, init);
      var before, after := AddTurns(turns, thread, init), AddTurns(turns, thread, saved);
      assert saved == init + [t];
      forall t' | t' in saved ensures HasLiveTurn(after, thread, t'.turnId) {
        if HasLiveTurn(before, thread, t'.turnId) {
          HasLiveTurnIsMonotone(before, after, thread, t'.turnId);
        } else {
          assert after[|after| - 1].turnId == t'.turnId;
        }
      }
    }
  }

  lemma HasLiveTurnIsMonotone(before: seq<Turn>, after: seq<Turn>, thread: string, turnId: string)
    requires before <= after && HasLiveTurn(before, thread, turnId)
    ensures HasLiveTurn(after, thread, turnId)
  {
    var i :| 0 <= i < |before| && before[i].thread == thread && before[i].turnId == turnId;
    assert after[i] == before[i];
  }

  lemma {:induction false} AllTurnsExtends(turns: seq<Turn>, records: seq<Record>, asOf: Instant)
    ensures turns <= AllTurns(turns, records, asOf)
    ensures forall r, t :: r in records && r.capturedAt <= asOf && t in r.turns ==>
                             HasLiveTurn(AllTurns(turns, records, asOf), r.thread, t.turnId)
  {
    hide HasLiveTurn;
    if records != [] {
      var init, r := records[..|records| - 1], records[|records| - 1];
      AllTurnsExtends(turns, init, asOf);
      var before, after := AllTurns(turns, init, asOf), AllTurns(turns, records, asOf);
      AddTurnsExtends(before, r.thread, r.turns);
      assert records == init + [r];
      forall r', t | r' in records && r'.capturedAt <= asOf && t in r'.turns
        ensures HasLiveTurn(after, r'.thread, t.turnId)
      {
        if r' in init {
          HasLiveTurnIsMonotone(before, after, r'.thread, t.turnId);
        }
      }
    }
  }

  // ----- Idempotence

  lemma {:induction false} AddCallsNothingNew(calls: seq<UsageCall>, saved: seq<UsageCall>, asOf: Instant)
    requires forall i :: 0 <= i < |saved| && saved[i].timestamp <= asOf ==> Holds(calls, SlotOf(saved[i]))
    ensures AddCalls(calls, saved, asOf) == calls
  {
    if saved != [] {
      var last := |saved| - 1;
      AddCallsNothingNew(calls, saved[..last], asOf);
      assert saved[last].timestamp <= asOf ==> Holds(calls, SlotOf(saved[last]));
    }
  }

  lemma {:induction false} AddRecordsNothingNew(calls: seq<UsageCall>, records: seq<Record>, asOf: Instant)
    requires forall c :: Offered(records, asOf, c) ==> Holds(calls, SlotOf(c))
    ensures AddRecords(calls, records, asOf) == calls
  {
    hide Holds, SlotOf;
    if records != [] {
      var init, r := records[..|records| - 1], records[|records| - 1];
      forall c | Offered(init, asOf, c) ensures Holds(calls, SlotOf(c)) {
        OfferedAgain(records, asOf, c);
      }
      AddRecordsNothingNew(calls, init, asOf);
      if r.capturedAt <= asOf {
        forall i | 0 <= i < |r.calls| && r.calls[i].timestamp <= asOf ensures Holds(calls, SlotOf(r.calls[i])) {
          assert records[|records| - 1] == r && r.calls[i] in r.calls;
          assert Offered(records, asOf, r.calls[i]);
        }
        AddCallsNothingNew(calls, r.calls, asOf);
      }
    }
  }

  lemma OfferedAgain(records: seq<Record>, asOf: Instant, c: UsageCall)
    requires records != [] && Offered(records[..|records| - 1], asOf, c)
    ensures Offered(records, asOf, c)
  {
    var init := records[..|records| - 1];
    var i :| 0 <= i < |init| && init[i].capturedAt <= asOf && c in init[i].calls && c.timestamp <= asOf;
    assert records[i] == init[i];
  }

  lemma HoldsIgnoresOrder(s: seq<UsageCall>, t: seq<UsageCall>, slot: Slot)
    requires multiset(s) == multiset(t)
    ensures Holds(s, slot) <==> Holds(t, slot)
  {
    LastAtFacts(s, slot);
    LastAtFacts(t, slot);
    DistinctPermutation(s, t);
  }

  lemma {:induction false} AllTasksNothingNew(tasks: seq<Task>, records: seq<Record>, asOf: Instant)
    requires forall r :: r in records && r.capturedAt <= asOf ==> HasTask(tasks, r.thread)
    ensures AllTasks(tasks, records, asOf) == tasks
  {
    hide HasTask;
    if records != [] {
      assert forall r :: r in records[..|records| - 1] ==> r in records;
      AllTasksNothingNew(tasks, records[..|records| - 1], asOf);
      assert records[|records| - 1] in records;
    }
  }

  lemma {:induction false} AddTurnsNothingNew(turns: seq<Turn>, thread: string, saved: seq<DeletedTurn>)
    requires forall t :: t in saved ==> HasLiveTurn(turns, thread, t.turnId)
    ensures AddTurns(turns, thread, saved) == turns
  {
    hide HasLiveTurn;
    if saved != [] {
      assert forall t :: t in saved[..|saved| - 1] ==> t in saved;
      AddTurnsNothingNew(turns, thread, saved[..|saved| - 1]);
      assert HasLiveTurn(turns, thread, saved[|saved| - 1].turnId);
    }
  }

  lemma {:induction false} AllTurnsNothingNew(turns: seq<Turn>, records: seq<Record>, asOf: Instant)
    requires forall r, t :: r in records && r.capturedAt <= asOf && t in r.turns ==>
              HasLiveTurn(turns, r.thread, t.turnId)
    ensures AllTurns(turns, records, asOf) == turns
  {
    hide HasLiveTurn;
    if records != [] {
      assert forall r :: r in records[..|records| - 1] ==> r in records;
      AllTurnsNothingNew(turns, records[..|records| - 1], asOf);
      var r := records[|records| - 1];
      assert r in records;
      if r.capturedAt <= asOf {
        AddTurnsNothingNew(turns, r.thread, r.turns);
      }
    }
  }

  lemma {:induction false} MergeInteractionsNothingNew(saved: seq<AgentInteraction>, edges: seq<AgentInteraction>)
    requires forall e :: e in saved ==> e in edges
    ensures MergeInteractions(saved, edges) == edges
  {
    if saved != [] {
      assert forall e :: e in saved[..|saved| - 1] ==> e in saved;
      MergeInteractionsNothingNew(saved[..|saved| - 1], edges);
      assert saved[|saved| - 1] in saved;
    }
  }

  lemma {:induction false} AllInteractionsSettled(edges: seq<AgentInteraction>, records: seq<Record>, asOf: Instant)
    ensures edges <= AllInteractions(edges, records, asOf)
    ensures forall r, e :: r in records && r.capturedAt <= asOf && e in r.interactions ==>
                             e in AllInteractions(edges, records, asOf)
  {
    if records != [] {
      var init, r := records[..|records| - 1], records[|records| - 1];
      AllInteractionsSettled(edges, init, asOf);
      MergeInteractionsKeeps(r.interactions, AllInteractions(edges, init, asOf));
      var after := AllInteractions(edges, records, asOf);
      assert AllInteractions(edges, init, asOf) <= after;
      forall r', e | r' in records && r'.capturedAt <= asOf && e in r'.interactions ensures e in after {
        if r' in init {
          assert e in AllInteractions(edges, init, asOf);
        } else {
          assert r' == r;
        }
      }
    }
  }

  lemma {:induction false} AllInteractionsNothingNew(edges: seq<AgentInteraction>, records: seq<Record>, asOf: Instant)
    requires forall r, e :: r in records && r.capturedAt <= asOf && e in r.interactions ==> e in edges
    ensures AllInteractions(edges, records, asOf) == edges
  {
    if records != [] {
      var r := records[|records| - 1];
      assert forall r :: r in records[..|records| - 1] ==> r in records;
      AllInteractionsNothingNew(edges, records[..|records| - 1], asOf);
      assert r in records;
      if r.capturedAt <= asOf {
        MergeInteractionsNothingNew(r.interactions, edges);
      }
    }
  }

  /** The parts of a dataset the overlay restores; the rest only reports conflicts. */
  ghost predicate SameUsage(a: Rollout, b: Rollout) {
    a.calls == b.calls && a.tasks == b.tasks && a.turns == b.turns && a.interactions == b.interactions
  }

  lemma OverlayIdempotentOnCalls(d: Rollout, records: seq<Record>, asOf: Instant)
    ensures
      var once := Overlaid(d, records, asOf);
      AddRecords(once.calls, records, asOf) == once.calls && Sort(TimeLe, once.calls) == once.calls
  {
    hide Overlaid, Holds, SlotOf;
    var once := Overlaid(d, records, asOf);
    OverlaySort(d, records, asOf);
    AddRecordsExtends(d.calls, records, asOf);
    forall c | Offered(records, asOf, c) ensures Holds(once.calls, SlotOf(c)) {
      HoldsIgnoresOrder(AddRecords(d.calls, records, asOf), once.calls, SlotOf(c));
    }
    AddRecordsNothingNew(once.calls, records, asOf);
    TimeLeIsTotalPreorder();
    SortOfSorted(TimeLe, once.calls);
  }

  lemma RetotalTwice(tasks: seq<Task>, turns: seq<Turn>, touched: set<string>, calls: seq<UsageCall>)
    ensures RetotalTasks(RetotalTasks(tasks, touched, calls), touched, calls) == RetotalTasks(tasks, touched, calls)
    ensures RetotalTurns(RetotalTurns(turns, touched, calls), touched, calls) == RetotalTurns(turns, touched, calls)
  {
    hide ThreadTotal, TurnTotal;
  }

  lemma RetotalKeepsIdentity(tasks: seq<Task>, turns: seq<Turn>, touched: set<string>, calls: seq<UsageCall>)
    ensures forall thread :: HasTask(tasks, thread) ==> HasTask(RetotalTasks(tasks, touched, calls), thread)
    ensures forall thread, turnId ::
              HasLiveTurn(turns, thread, turnId) ==> HasLiveTurn(RetotalTurns(turns, touched, calls), thread, turnId)
  {
    hide ThreadTotal, TurnTotal;
    forall thread | HasTask(tasks, thread) ensures HasTask(RetotalTasks(tasks, touched, calls), thread) {
      var i :| 0 <= i < |tasks| && tasks[i].thread == thread;
      assert RetotalTasks(tasks, touched, calls)[i].thread == thread;
    }
    forall thread, turnId | HasLiveTurn(turns, thread, turnId)
      ensures HasLiveTurn(RetotalTurns(turns, touched, calls), thread, turnId)
    {
      var i :| 0 <= i < |turns| && turns[i].thread == thread && turns[i].turnId == turnId;
      assert RetotalTurns(turns, touched, calls)[i].turnId == turnId;
    }
  }

  /** Overlaying the same records again changes no call, task, turn or interaction. */
  lemma OverlayIsIdempotent(d: Rollout, records: seq<Record>, asOf: Instant)
    ensures
      var once := Overlaid(d, records, asOf);
      SameUsage(Overlaid(once, records, asOf), once)
  {
    var once := Overlaid(d, records, asOf);
    assert once.interactions == AllInteractions(d.interactions, records, asOf);
    hide Overlaid, HasTask, HasLiveTurn, RetotalTasks, RetotalTurns;
    OverlayIdempotentOnCalls(d, records, asOf);
    OverlaySort(d, records, asOf);
    var touched := Touched(records, asOf);
    var tasks, turns := AllTasks(d.tasks, records, asOf), AllTurns(d.turns, records, asOf);
    AllTasksExtends(d.tasks, records, asOf);
    AllTurnsExtends(d.turns, records, asOf);
    AllInteractionsSettled(d.interactions, records, asOf);
    RetotalKeepsIdentity(tasks, turns, touched, once.calls);
    AllTasksNothingNew(once.tasks, records, asOf);
    AllTurnsNothingNew(once.turns, records, asOf);
    AllInteractionsNothingNew(once.interactions, records, asOf);
    RetotalTwice(tasks, turns, touched, once.calls);
    OverlayOfSettled(once, records, asOf);
  }

  lemma OverlayOfSettled(d: Rollout, records: seq<Record>, asOf: Instant)
    requires AddRecords(d.calls, records, asOf) == d.calls && Sort(TimeLe, d.calls) == d.calls
    requires AllTasks(d.tasks, records, asOf) == d.tasks
    requires AllTurns(d.turns, records, asOf) == d.turns
    requires AllInteractions(d.interactions, records, asOf) == d.interactions
    requires RetotalTasks(d.tasks, Touched(records, asOf), d.calls) == d.tasks
    requires RetotalTurns(d.turns, Touched(records, asOf), d.calls) == d.turns
    ensures SameUsage(Overlaid(d, records, asOf), d)
  {
    hide AddRecords, AllTasks, AllTurns, AllInteractions, RetotalTasks, RetotalTurns, AllConflicts, Touched, Sort;
  }
}
