/**
 What a capture takes from the dataset (src/deleted_sessions.rs), field by field: the
 task's own details, all turns and calls of the thread, and every interaction at whose
 ends it stands.
 */
module Capture {
  import opened Time
  import opened Options
  import opened Dataset
  import opened Records

  /** The saved turn tells of the live one all that is saved of a turn. */
  predicate TellsOf(x: DeletedTurn, t: Turn) {
    && x.turnId == t.turnId && x.model == t.model && x.tier == t.tier
    && x.startedAt == t.startedAt && x.completedAt == t.completedAt && x.durationMs == t.durationMs
    && x.status == t.status
  }

  /** The first live turn of the thread under the given id. */
  function FirstTurn(turns: seq<Turn>, thread: string, turnId: string): Option<Turn> {
    if turns == [] then
      None
    else
      var found, t := FirstTurn(turns[..|turns| - 1], thread, turnId), turns[|turns| - 1];
      if found.None? && t.thread == thread && t.turnId == turnId then Some(t) else found
  }

  /** The first saved turn under the given id. */
  function FirstSaved(saved: seq<DeletedTurn>, turnId: string): Option<DeletedTurn> {
    if saved == [] then
      None
    else
      var found, t := FirstSaved(saved[..|saved| - 1], turnId), saved[|saved| - 1];
      if found.None? && t.turnId == turnId then Some(t) else found
  }

  lemma {:induction false} FirstTurnFacts(turns: seq<Turn>, thread: string, turnId: string)
    ensures
      match FirstTurn(turns, thread, turnId)
      case None => forall t :: t in turns ==> t.thread != thread || t.turnId != turnId
      case Some(t) => t in turns && t.thread == thread && t.turnId == turnId
  {
    if turns != [] {
      FirstTurnFacts(turns[..|turns| - 1], thread, turnId);
      assert turns == turns[..|turns| - 1] + [turns[|turns| - 1]];
    }
  }

  lemma HasTurnExtend(saved: seq<DeletedTurn>, t: DeletedTurn, turnId: string)
    ensures HasTurn(saved + [t], turnId) <==> HasTurn(saved, turnId) || t.turnId == turnId
  {
    assert (saved + [t])[|saved|] == t;
    assert forall i :: 0 <= i < |saved| ==> (saved + [t])[i] == saved[i];
  }

  lemma {:induction false} FirstSavedFacts(saved: seq<DeletedTurn>, turnId: string)
    ensures FirstSaved(saved, turnId).Some? <==> HasTurn(saved, turnId)
  {
    if saved != [] {
      hide HasTurn;
      var init, last := saved[..|saved| - 1], saved[|saved| - 1];
      FirstSavedFacts(init, turnId);
      HasTurnExtend(init, last, turnId);
      assert saved == init + [last];
    }
  }

  /** Both are absent, or the saved turn tells of the live one. */
  predicate Matches(saved: Option<DeletedTurn>, live: Option<Turn>) {
    (saved.None? && live.None?) || (saved.Some? && live.Some? && TellsOf(saved.value, live.value))
  }

  ghost predicate CapturesTurns(thread: string, turns: seq<Turn>, saved: seq<DeletedTurn>) {
    && (forall x :: x in saved ==> exists t :: t in turns && t.thread == thread && TellsOf(x, t))
    && (forall t :: t in turns && t.thread == thread ==> exists x :: x in saved && TellsOf(x, t))
  }

  lemma {:induction false} CapturedTurns(thread: string, turns: seq<Turn>)
    ensures CapturesTurns(thread, turns, TurnsOf(thread, turns))
    ensures forall turnId :: Matches(FirstSaved(TurnsOf(thread, turns), turnId), FirstTurn(turns, thread, turnId))
  {
    if turns != [] {
      var init, t := turns[..|turns| - 1], turns[|turns| - 1];
      var before, after := TurnsOf(thread, init), TurnsOf(thread, turns);
      CapturedTurns(thread, init);
      assert turns == init + [t];
      if t.thread == thread {
        var x := after[|after| - 1];
        assert after == before + [x] && TellsOf(x, t);
        OneMoreTurn(thread, init, before, t, x);
      }
    }
  }

  lemma OneMoreTurn(thread: string, turns: seq<Turn>, saved: seq<DeletedTurn>, t: Turn, x: DeletedTurn)
    requires CapturesTurns(thread, turns, saved) && t.thread == thread && TellsOf(x, t)
    ensures CapturesTurns(thread, turns + [t], saved + [x])
  {
    hide TellsOf;
    forall y | y in saved + [x] ensures exists s :: s in turns + [t] && s.thread == thread && TellsOf(y, s) {
      if y in saved {
        var s :| s in turns && s.thread == thread && TellsOf(y, s);
        assert s in turns + [t];
      } else {
        assert t in turns + [t];
      }
    }
    forall s | s in turns + [t] && s.thread == thread ensures exists y :: y in saved + [x] && TellsOf(y, s) {
      if s in turns {
        var y :| y in saved && TellsOf(y, s);
        assert y in saved + [x];
      } else {
        assert x in saved + [x];
      }
    }
  }

  predicate Involves(e: AgentInteraction, thread: string) {
    thread == e.parentThread || thread == e.childThread
  }

  lemma {:induction false} CapturedInteractions(thread: string, edges: seq<AgentInteraction>)
    ensures forall e :: e in InteractionsOf(thread, edges) <==> e in edges && Involves(e, thread)
  {
    if edges != [] {
      CapturedInteractions(thread, edges[..|edges| - 1]);
      assert edges == edges[..|edges| - 1] + [edges[|edges| - 1]];
    }
  }

  lemma {:induction false} CapturedCalls(thread: string, calls: seq<UsageCall>)
    ensures forall c :: multiset(CallsOf(thread, calls))[c] == if c.thread == thread then multiset(calls)[c] else 0
  {
    if calls != [] {
      CapturedCalls(thread, calls[..|calls| - 1]);
      assert calls == calls[..|calls| - 1] + [calls[|calls| - 1]];
    }
  }

  /** The first task of the thread. */
  ghost predicate IsTaskOf(task: Task, thread: string, tasks: seq<Task>) {
    exists i :: 0 <= i < |tasks| && tasks[i] == task && task.thread == thread
                && forall j :: 0 <= j < i ==> tasks[j].thread != thread
  }

  lemma {:induction false} FoundTask(thread: string, tasks: seq<Task>)
    ensures
      match FindTask(thread, tasks)
      case None => NoTask(thread, tasks)
      case Some(task) => IsTaskOf(task, thread, tasks)
  {
    if tasks != [] && tasks[0].thread != thread {
      FoundTask(thread, tasks[1..]);
      var found := FindTask(thread, tasks[1..]);
      if found.Some? {
        var i :| 0 <= i < |tasks[1..]| && tasks[1..][i] == found.value
                 && forall j :: 0 <= j < i ==> tasks[1..][j].thread != thread;
        assert tasks[i + 1] == found.value;
        assert forall j :: 0 < j < i + 1 ==> tasks[j] == tasks[1..][j - 1];
      } else {
        assert forall i :: 0 < i < |tasks| ==> tasks[i] == tasks[1..][i - 1];
      }
    }
  }

  /** The details that a capture takes from the task itself. */
  predicate DetailsOf(r: Record, task: Task) {
    && r.parent == task.parent && r.cwd == task.cwd && r.source == task.source
    && r.createdAt == task.createdAt && r.updatedAt == task.updatedAt
  }

  /** The record holds the thread's task, calls, turns and interactions, and nothing else. */
  ghost predicate Complete(r: Record, thread: string, d: Rollout) {
    && r.thread == thread
    && (exists task :: IsTaskOf(task, thread, d.tasks) && DetailsOf(r, task))
    && (forall c :: multiset(r.calls)[c] == if c.thread == thread then multiset(d.calls)[c] else 0)
    && CapturesTurns(thread, d.turns, r.turns)
    && (forall turnId :: Matches(FirstSaved(r.turns, turnId), FirstTurn(d.turns, thread, turnId)))
    && (forall e :: e in r.interactions <==> e in d.interactions && Involves(e, thread))
  }

  ghost predicate NoTask(thread: string, tasks: seq<Task>) {
    forall i :: 0 <= i < |tasks| ==> tasks[i].thread != thread
  }

  /** A capture is complete; it fails without a task, and otherwise only where the record would not be valid. */
  lemma CaptureIsComplete(shorten: string -> string, thread: string, title: string, capturedAt: Instant, d: Rollout)
    ensures
      match FromDataset(shorten, thread, title, capturedAt, d)
      case Failure(error) => error == SessionAbsent <==> NoTask(thread, d.tasks)
      case Success(r) =>
        && Complete(r, thread, d)
        && r.title == shorten(title) && r.capturedAt == capturedAt && r.status == Pending && r.deletedAt == None
  {
    hide Valid, CallsOf, TurnsOf, InteractionsOf, CapturesTurns, Matches, IsTaskOf, Involves, NoTask;
    FoundTask(thread, d.tasks);
    CapturedCalls(thread, d.calls);
    CapturedTurns(thread, d.turns);
    CapturedInteractions(thread, d.interactions);
    var found := FindTask(thread, d.tasks);
    if found.Some? {
      assert IsTaskOf(found.value, thread, d.tasks);
      TaskIsThere(found.value, thread, d.tasks);
    }
  }

  lemma TaskIsThere(task: Task, thread: string, tasks: seq<Task>)
    requires IsTaskOf(task, thread, tasks)
    ensures !NoTask(thread, tasks)
  {
  }
}
