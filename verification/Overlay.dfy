/**
 Overlaying saved sessions on a freshly collected dataset
 (src/deleted_sessions.rs): which calls the result holds, what it leaves alone,
 and that repeating it or reordering the records changes nothing.
 */
module Overlay {
  import opened Time
  import opened Options
  import opened Saturating
  import opened Folding
  import opened Ordering
  import opened Tokens
  import opened Dataset
  import opened Records

  // ----- Calls

  /** The owner and key under which a live or saved call is looked up. */
  type Slot = (string, CallKey)

  function SlotOf(c: UsageCall): Slot {
    (c.thread, KeyOf(c))
  }

  /** The last call in the given slot, which is the one the index remembers. */
  function LastAt(calls: seq<UsageCall>, slot: Slot): Option<UsageCall> {
    if calls == [] then
      None
    else if SlotOf(calls[|calls| - 1]) == slot then
      Some(calls[|calls| - 1])
    else
      LastAt(calls[..|calls| - 1], slot)
  }

  function AddCall(calls: seq<UsageCall>, saved: UsageCall, asOf: Instant): seq<UsageCall> {
    if saved.timestamp <= asOf && LastAt(calls, SlotOf(saved)).None? then calls + [saved] else calls
  }

  function AddCalls(calls: seq<UsageCall>, saved: seq<UsageCall>, asOf: Instant): seq<UsageCall> {
    if saved == [] then calls else AddCall(AddCalls(calls, saved[..|saved| - 1], asOf), saved[|saved| - 1], asOf)
  }

  function AddRecords(calls: seq<UsageCall>, records: seq<Record>, asOf: Instant): seq<UsageCall> {
    if records == [] then
      calls
    else
      var before, r := AddRecords(calls, records[..|records| - 1], asOf), records[|records| - 1];
      if r.capturedAt <= asOf then AddCalls(before, r.calls, asOf) else before
  }

  /** One warning for each saved call that contradicts the live call in its slot. */
  function Conflicts(calls: seq<UsageCall>, thread: string, saved: seq<UsageCall>, asOf: Instant): seq<string> {
    if saved == [] then
      []
    else
      var init, c := saved[..|saved| - 1], saved[|saved| - 1];
      var live := LastAt(AddCalls(calls, init, asOf), SlotOf(c));
      Conflicts(calls, thread, init, asOf)
      + if c.timestamp <= asOf && live.Some? && live.value != c then [thread] else []
  }

  function AllConflicts(calls: seq<UsageCall>, records: seq<Record>, asOf: Instant): seq<string> {
    if records == [] then
      []
    else
      var init, r := records[..|records| - 1], records[|records| - 1];
      AllConflicts(calls, init, asOf)
      + if r.capturedAt <= asOf then Conflicts(AddRecords(calls, init, asOf), r.thread, r.calls, asOf) else []
  }

  /** The final order of the calls: by time, then by thread. */
  predicate TimeLe(a: UsageCall, b: UsageCall) {
    a.timestamp < b.timestamp || (a.timestamp == b.timestamp && StringLe(a.thread, b.thread))
  }

  lemma TimeLeIsTotalPreorder()
    ensures TotalPreorder(TimeLe)
  {
    forall a: UsageCall, b: UsageCall ensures TimeLe(a, b) || TimeLe(b, a) {
      StringLeTotal(a.thread, b.thread);
    }
    forall a: UsageCall, b: UsageCall, c: UsageCall | TimeLe(a, b) && TimeLe(b, c) ensures TimeLe(a, c) {
      if StringLe(a.thread, b.thread) && StringLe(b.thread, c.thread) {
        StringLeTransitive(a.thread, b.thread, c.thread);
      }
    }
  }

  // ----- Tasks, turns and interactions

  predicate HasTask(tasks: seq<Task>, thread: string) {
    exists i :: 0 <= i < |tasks| && tasks[i].thread == thread
  }

  function RestoredTask(r: Record): Task {
    Task(r.thread, r.parent, false, r.title, r.cwd, r.source, r.createdAt, r.updatedAt,
         if r.status == Deleted then Completed else Unknown, NO_TOKENS, |r.turns|)
  }

  function AddTask(tasks: seq<Task>, r: Record): seq<Task> {
    if HasTask(tasks, r.thread) then tasks else tasks + [RestoredTask(r)]
  }

  predicate HasLiveTurn(turns: seq<Turn>, thread: string, turnId: string) {
    exists i :: 0 <= i < |turns| && turns[i].thread == thread && turns[i].turnId == turnId
  }

  function RestoredTurn(thread: string, t: DeletedTurn): Turn {
    Turn(thread, t.turnId, t.model, None, t.tier, None, t.startedAt, t.completedAt, t.durationMs, t.status, NO_TOKENS)
  }

  function AddTurns(turns: seq<Turn>, thread: string, saved: seq<DeletedTurn>): seq<Turn> {
    if saved == [] then
      turns
    else
      var before, t := AddTurns(turns, thread, saved[..|saved| - 1]), saved[|saved| - 1];
      if HasLiveTurn(before, thread, t.turnId) then before else before + [RestoredTurn(thread, t)]
  }

  function AddInteractions(edges: seq<AgentInteraction>, saved: seq<AgentInteraction>): seq<AgentInteraction> {
    MergeInteractions(saved, edges)
  }

  function AllTasks(tasks: seq<Task>, records: seq<Record>, asOf: Instant): seq<Task> {
    if records == [] then
      tasks
    else
      var before, r := AllTasks(tasks, records[..|records| - 1], asOf), records[|records| - 1];
      if r.capturedAt <= asOf then AddTask(before, r) else before
  }

  function AllTurns(turns: seq<Turn>, records: seq<Record>, asOf: Instant): seq<Turn> {
    if records == [] then
      turns
    else
      var before, r := AllTurns(turns, records[..|records| - 1], asOf), records[|records| - 1];
      if r.capturedAt <= asOf then AddTurns(before, r.thread, r.turns) else before
  }

  function AllInteractions(edges: seq<AgentInteraction>, records: seq<Record>, asOf: Instant): seq<AgentInteraction> {
    if records == [] then
      edges
    else
      var before, r := AllInteractions(edges, records[..|records| - 1], asOf), records[|records| - 1];
      if r.capturedAt <= asOf then AddInteractions(before, r.interactions) else before
  }

  // ----- Totals

  function Touched(records: seq<Record>, asOf: Instant): set<string> {
    if records == [] then
      {}
    else
      var before, r := Touched(records[..|records| - 1], asOf), records[|records| - 1];
      if r.capturedAt <= asOf then before + {r.thread} else before
  }

  /** The accumulation of one thread's calls, or of one of its turns. */
  function ThreadStep(thread: string): (TokenUsage, UsageCall) -> TokenUsage {
    (sum: TokenUsage, c: UsageCall) => if c.thread == thread then Add(sum, c.tokens) else sum
  }

  function TurnStep(thread: string, turnId: string): (TokenUsage, UsageCall) -> TokenUsage {
    (sum: TokenUsage, c: UsageCall) => if c.thread == thread && c.turn == Some(turnId) then Add(sum, c.tokens) else sum
  }

  function ThreadTotal(calls: seq<UsageCall>, thread: string): TokenUsage {
    Fold(ThreadStep(thread), NO_TOKENS, calls)
  }

  function TurnTotal(calls: seq<UsageCall>, thread: string, turnId: string): TokenUsage {
    Fold(TurnStep(thread, turnId), NO_TOKENS, calls)
  }

  lemma TotalsIgnoreOrder(s: seq<UsageCall>, t: seq<UsageCall>, thread: string, turnId: string)
    requires multiset(s) == multiset(t)
    ensures ThreadTotal(s, thread) == ThreadTotal(t, thread)
    ensures TurnTotal(s, thread, turnId) == TurnTotal(t, thread, turnId)
  {
    AddAccumulates();
    forall a: TokenUsage, x: UsageCall, y: UsageCall
      ensures ThreadStep(thread)(ThreadStep(thread)(a, x), y) == ThreadStep(thread)(ThreadStep(thread)(a, y), x)
      ensures TurnStep(thread, turnId)(TurnStep(thread, turnId)(a, x), y)
           == TurnStep(thread, turnId)(TurnStep(thread, turnId)(a, y), x)
    {
      assert Add(Add(a, x.tokens), y.tokens) == Add(Add(a, y.tokens), x.tokens);
    }
    FoldPermutation(ThreadStep(thread), NO_TOKENS, s, t);
    FoldPermutation(TurnStep(thread, turnId), NO_TOKENS, s, t);
  }

  function RetotalTask(task: Task, touched: set<string>, calls: seq<UsageCall>): Task {
    if task.thread in touched then task.(tokenUsage := ThreadTotal(calls, task.thread)) else task
  }

  function RetotalTurn(turn: Turn, touched: set<string>, calls: seq<UsageCall>): Turn {
    if turn.thread in touched then turn.(tokenUsage := TurnTotal(calls, turn.thread, turn.turnId)) else turn
  }

  function RetotalTasks(tasks: seq<Task>, touched: set<string>, calls: seq<UsageCall>): seq<Task> {
    seq(|tasks|, i requires 0 <= i < |tasks| => RetotalTask(tasks[i], touched, calls))
  }

  function RetotalTurns(turns: seq<Turn>, touched: set<string>, calls: seq<UsageCall>): seq<Turn> {
    seq(|turns|, i requires 0 <= i < |turns| => RetotalTurn(turns[i], touched, calls))
  }

  /** The dataset after the overlay. */
  function Overlaid(d: Rollout, records: seq<Record>, asOf: Instant): Rollout {
    var calls := AddRecords(d.calls, records, asOf);
    var conflicts := AllConflicts(d.calls, records, asOf);
    var touched := Touched(records, asOf);
    Rollout(
      Sort(TimeLe, calls),
      RetotalTasks(AllTasks(d.tasks, records, asOf), touched, calls),
      RetotalTurns(AllTurns(d.turns, records, asOf), touched, calls),
      AllInteractions(d.interactions, records, asOf),
      d.warnings + conflicts,
      Cap64(d.skippedLines + |conflicts|))
  }
}
