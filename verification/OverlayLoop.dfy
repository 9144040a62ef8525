/** The overlay as the program runs it: in place, with an index of slots and maps of totals. */
module OverlayLoop {
  import opened Time
  import opened Options
  import opened Saturating
  import opened Folding
  import opened Ordering
  import opened Tokens
  import opened Dataset
  import opened Records
  import opened Overlay
  import opened OverlayLaws

  /** The index maps each occupied slot to the position of its last call. */
  ghost predicate Indexes(index: map<Slot, nat>, calls: seq<UsageCall>) {
    && (forall slot :: slot in index <==> LastAt(calls, slot).Some?)
    && (forall slot :: slot in index ==> index[slot] < |calls| && LastAt(calls, slot) == Some(calls[index[slot]]))
  }

  lemma IndexExtend(index: map<Slot, nat>, calls: seq<UsageCall>, c: UsageCall)
    requires Indexes(index, calls)
    ensures Indexes(index[SlotOf(c) := |calls|], calls + [c])
  {
    hide SlotOf, LastAt;
    forall slot ensures LastAt(calls + [c], slot) == if SlotOf(c) == slot then Some(c) else LastAt(calls, slot) {
      LastAtExtend(calls, c, slot);
    }
  }

  /** The totals collected so far for the touched threads among `calls`. */
  ghost predicate HoldsThreadTotals(totals: map<string, TokenUsage>, touched: set<string>, calls: seq<UsageCall>) {
    forall thread :: thread in touched ==>
                       ThreadTotal(calls, thread) == if thread in totals then totals[thread] else NO_TOKENS
  }

  ghost predicate HoldsTurnTotals(totals: map<(string, string), TokenUsage>, touched: set<string>,
                                  calls: seq<UsageCall>) {
    forall thread, turnId ::
      thread in touched ==>
        TurnTotal(calls, thread, turnId) == if (thread, turnId) in totals then totals[(thread, turnId)] else NO_TOKENS
  }

  class RolloutDataset {
    var calls: seq<UsageCall>
    var tasks: seq<Task>
    var turns: seq<Turn>
    var interactions: seq<AgentInteraction>
    var warnings: seq<string>
    var skippedLines: U64

    constructor (d: Rollout)
      ensures View() == d
    {
      calls, tasks, turns, interactions := d.calls, d.tasks, d.turns, d.interactions;
      warnings, skippedLines := d.warnings, d.skippedLines;
    }

    ghost function View(): Rollout
      reads this
    {
      Rollout(calls, tasks, turns, interactions, warnings, skippedLines)
    }

    method BuildIndex() returns (index: map<Slot, nat>)
      ensures Indexes(index, calls)
    {
      hide SlotOf;
      index := map[];
      for i := 0 to |calls|
        invariant Indexes(index, calls[..i])
      {
        IndexExtend(index, calls[..i], calls[i]);
        assert calls[..i + 1] == calls[..i] + [calls[i]];
        index := index[SlotOf(calls[i]) := i];
      }
      assert calls[..|calls|] == calls;
    }

    method AbsorbCalls(r: Record, asOf: Instant, index: map<Slot, nat>) returns (after: map<Slot, nat>)
      requires Indexes(index, calls)
      modifies `calls, `warnings, `skippedLines
      ensures calls == AddCalls(old(calls), r.calls, asOf)
      ensures warnings == old(warnings) + Conflicts(old(calls), r.thread, r.calls, asOf)
      ensures skippedLines == Cap64(old(skippedLines) + |Conflicts(old(calls), r.thread, r.calls, asOf)|)
      ensures Indexes(after, calls)
    {
      hide SlotOf, LastAt, AddCalls, Conflicts;
      after := index;
      NothingAbsorbed(calls, r.thread, asOf);
      for i := 0 to |r.calls|
        invariant Indexes(after, calls)
        invariant calls == AddCalls(old(calls), r.calls[..i], asOf)
        invariant warnings == old(warnings) + Conflicts(old(calls), r.thread, r.calls[..i], asOf)
        invariant skippedLines == Cap64(old(skippedLines) + |Conflicts(old(calls), r.thread, r.calls[..i], asOf)|)
      {
        var saved := r.calls[i];
        OneMoreAbsorbed(old(calls), r.thread, r.calls, i, asOf);
        if saved.timestamp <= asOf {
          if SlotOf(saved) in after {
            if calls[after[SlotOf(saved)]] != saved {
              skippedLines := Add64(skippedLines, 1);
              warnings := warnings + [r.thread];
            }
          } else {
            IndexExtend(after, calls, saved);
            after := after[SlotOf(saved) := |calls|];
            calls := calls + [saved];
          }
        }
      }
      assert r.calls[..|r.calls|] == r.calls;
    }

    method AbsorbTurns(r: Record)
      modifies `turns
      ensures turns == AddTurns(old(turns), r.thread, r.turns)
    {
      for i := 0 to |r.turns|
        invariant turns == AddTurns(old(turns), r.thread, r.turns[..i])
      {
        assert r.turns[..i + 1][..i] == r.turns[..i];
        if !HasLiveTurn(turns, r.thread, r.turns[i].turnId) {
          turns := turns + [RestoredTurn(r.thread, r.turns[i])];
        }
      }
      assert r.turns[..|r.turns|] == r.turns;
    }

    method AbsorbInteractions(r: Record)
      modifies `interactions
      ensures interactions == AddInteractions(old(interactions), r.interactions)
    {
      for i := 0 to |r.interactions|
        invariant interactions == AddInteractions(old(interactions), r.interactions[..i])
      {
        assert r.interactions[..i + 1][..i] == r.interactions[..i];
        if r.interactions[i] !in interactions {
          interactions := interactions + [r.interactions[i]];
        }
      }
      assert r.interactions[..|r.interactions|] == r.interactions;
    }

    /** One pass over all calls that sums up the touched threads and their turns. */
    method SumTouched(touched: set<string>)
      returns (totals: map<string, TokenUsage>, turnTotals: map<(string, string), TokenUsage>)
      ensures HoldsThreadTotals(totals, touched, calls)
      ensures HoldsTurnTotals(turnTotals, touched, calls)
    {
      hide HoldsThreadTotals, HoldsTurnTotals;
      totals, turnTotals := map[], map[];
      NoTotals(touched);
      for i := 0 to |calls|
        invariant HoldsThreadTotals(totals, touched, calls[..i])
        invariant HoldsTurnTotals(turnTotals, touched, calls[..i])
      {
        var call := calls[i];
        assert calls[..i + 1] == calls[..i] + [call];
        ThreadTotalsStep(totals, touched, calls[..i], call);
        TurnTotalsStep(turnTotals, touched, calls[..i], call);
        if call.thread in touched {
          totals := Bump(Add, NO_TOKENS, totals, call.thread, call.tokens);
          if call.turn.Some? {
            turnTotals := Bump(Add, NO_TOKENS, turnTotals, (call.thread, call.turn.value), call.tokens);
          }
        }
      }
      assert calls[..|calls|] == calls;
    }

    method RetotalAllTasks(touched: set<string>, totals: map<string, TokenUsage>)
      requires HoldsThreadTotals(totals, touched, calls)
      modifies `tasks
      ensures tasks == RetotalTasks(old(tasks), touched, calls)
    {
      hide ThreadTotal;
      for i := 0 to |tasks|
        invariant |tasks| == |old(tasks)|
        invariant forall j :: 0 <= j < i ==> tasks[j] == RetotalTask(old(tasks)[j], touched, calls)
        invariant forall j :: i <= j < |tasks| ==> tasks[j] == old(tasks)[j]
      {
        var task := tasks[i];
        if task.thread in touched {
          tasks := tasks[i := task.(tokenUsage := if task.thread in totals then totals[task.thread] else NO_TOKENS)];
        }
      }
    }

    method RetotalAllTurns(touched: set<string>, totals: map<(string, string), TokenUsage>)
      requires HoldsTurnTotals(totals, touched, calls)
      modifies `turns
      ensures turns == RetotalTurns(old(turns), touched, calls)
    {
      hide TurnTotal;
      for i := 0 to |turns|
        invariant |turns| == |old(turns)|
        invariant forall j :: 0 <= j < i ==> turns[j] == RetotalTurn(old(turns)[j], touched, calls)
        invariant forall j :: i <= j < |turns| ==> turns[j] == old(turns)[j]
      {
        var turn := turns[i];
        if turn.thread in touched {
          var key := (turn.thread, turn.turnId);
          turns := turns[i := turn.(tokenUsage := if key in totals then totals[key] else NO_TOKENS)];
        }
      }
    }

    /** Adds the saved sessions in place; the laws in OverlayLaws and OverlayOrder describe the result. */
    method OverlayDeletedSessions(records: seq<Record>, asOf: Instant)
      modifies this
      ensures View() == Overlaid(old(View()), records, asOf)
    {
      hide Indexes, HoldsThreadTotals, HoldsTurnTotals;
      hide AddCalls, Conflicts, AddTask, AddTurns, AddInteractions, RetotalTasks, RetotalTurns, Sort;
      var index := BuildIndex();
      var touched: set<string> := {};
      for i := 0 to |records|
        invariant Indexes(index, calls)
        invariant calls == AddRecords(old(calls), records[..i], asOf)
        invariant warnings == old(warnings) + AllConflicts(old(calls), records[..i], asOf)
        invariant skippedLines == Cap64(old(skippedLines) + |AllConflicts(old(calls), records[..i], asOf)|)
        invariant tasks == AllTasks(old(tasks), records[..i], asOf)
        invariant turns == AllTurns(old(turns), records[..i], asOf)
        invariant interactions == AllInteractions(old(interactions), records[..i], asOf)
        invariant touched == Touched(records[..i], asOf)
      {
        var r := records[i];
        assert records[..i + 1][..i] == records[..i];
        if r.capturedAt <= asOf {
          touched := touched + {r.thread};
          index := AbsorbCalls(r, asOf, index);
          tasks := AddTask(tasks, r);
          AbsorbTurns(r);
          AbsorbInteractions(r);
        }
      }
      assert records[..|records|] == records;
      var totals, turnTotals := SumTouched(touched);
      RetotalAllTasks(touched, totals);
      RetotalAllTurns(touched, turnTotals);
      calls := Sort(TimeLe, calls);
    }
  }

  lemma NothingAbsorbed(calls: seq<UsageCall>, thread: string, asOf: Instant)
    ensures AddCalls(calls, [], asOf) == calls && Conflicts(calls, thread, [], asOf) == []
  {
  }

  lemma OneMoreAbsorbed(calls: seq<UsageCall>, thread: string, saved: seq<UsageCall>, i: nat, asOf: Instant)
    requires i < |saved|
    ensures
      var before, c := AddCalls(calls, saved[..i], asOf), saved[i];
      var live := LastAt(before, SlotOf(c));
      && AddCalls(calls, saved[..i + 1], asOf) == (if c.timestamp <= asOf && live.None? then before + [c] else before)
      && Conflicts(calls, thread, saved[..i + 1], asOf)
         == Conflicts(calls, thread, saved[..i], asOf)
            + if c.timestamp <= asOf && live.Some? && live.value != c then [thread] else []
  {
    hide SlotOf, LastAt;
    assert saved[..i + 1][..i] == saved[..i];
  }

  lemma NoTotals(touched: set<string>)
    ensures HoldsThreadTotals(map[], touched, [])
    ensures HoldsTurnTotals(map[], touched, [])
  {
  }

  lemma ThreadTotalsStep(totals: map<string, TokenUsage>, touched: set<string>, calls: seq<UsageCall>, call: UsageCall)
    requires HoldsThreadTotals(totals, touched, calls)
    ensures call.thread in touched ==>
              HoldsThreadTotals(Bump(Add, NO_TOKENS, totals, call.thread, call.tokens), touched, calls + [call])
    ensures call.thread !in touched ==> HoldsThreadTotals(totals, touched, calls + [call])
  {
    hide Add, ThreadTotal;
    forall thread
      ensures ThreadTotal(calls + [call], thread)
           == if call.thread == thread then Add(ThreadTotal(calls, thread), call.tokens) else ThreadTotal(calls, thread)
    {
      ThreadTotalExtend(calls, call, thread);
    }
  }

  lemma ThreadTotalExtend(calls: seq<UsageCall>, call: UsageCall, thread: string)
    ensures ThreadTotal(calls + [call], thread)
         == if call.thread == thread then Add(ThreadTotal(calls, thread), call.tokens) else ThreadTotal(calls, thread)
  {
    hide Add;
    FoldExtend(ThreadStep(thread), NO_TOKENS, calls, call);
  }

  lemma TurnTotalsStep(totals: map<(string, string), TokenUsage>, touched: set<string>, calls: seq<UsageCall>,
                       call: UsageCall)
    requires HoldsTurnTotals(totals, touched, calls)
    ensures call.thread in touched && call.turn.Some? ==>
              HoldsTurnTotals(Bump(Add, NO_TOKENS, totals, (call.thread, call.turn.value), call.tokens), touched,
                              calls + [call])
    ensures call.thread !in touched || call.turn.None? ==> HoldsTurnTotals(totals, touched, calls + [call])
  {
    hide Add, TurnTotal;
    forall thread, turnId
      ensures TurnTotal(calls + [call], thread, turnId)
           == if call.thread == thread && call.turn == Some(turnId)
              then Add(TurnTotal(calls, thread, turnId), call.tokens) else TurnTotal(calls, thread, turnId)
    {
      TurnTotalExtend(calls, call, thread, turnId);
    }
  }

  lemma TurnTotalExtend(calls: seq<UsageCall>, call: UsageCall, thread: string, turnId: string)
    ensures TurnTotal(calls + [call], thread, turnId)
         == if call.thread == thread && call.turn == Some(turnId)
            then Add(TurnTotal(calls, thread, turnId), call.tokens) else TurnTotal(calls, thread, turnId)
  {
    hide Add;
    FoldExtend(TurnStep(thread, turnId), NO_TOKENS, calls, call);
  }
}
