/**
 The cooperative stop token (src/automatic_remote_sync.rs) as a state machine over
 its atomic steps: any number of waiters and stoppers, one mutex, one condition
 variable, one flag that a signal handler may also set without the mutex.
 */
module StopToken {
  import opened Options

  const SIGNAL_POLL_INTERVAL: nat := 250

  /** Where a caller of `wait_timeout` stands. */
  datatype Waiter =
    | Idle
    | Entering                  // wants the mutex
    | Checking                  // holds it, about to read the flag for the first time
    | Deciding                  // holds it, has read the flag as clear
    | Sleeping(slice: nat)      // gave the mutex up, waits in the condition variable, not notified
    | Woken                     // notified, timed out or woken spuriously; wants the mutex again
    | Rechecking                // holds it, about to read the flag again
    | Returned(stop: bool)

  /** Where a caller of `request_stop` stands. */
  datatype Stopper =
    | Away
    | Requesting                // wants the mutex
    | Locked                    // holds it, flag not yet stored
    | Stored                    // holds it, flag stored
    | Notified                  // holds it, all waiters notified
    | Done                      // released it

  datatype Actor = W(waiter: nat) | S(stopper: nat)

  datatype State = State(
    requested: bool,
    externallySet: bool,
    holder: Option<Actor>,
    waiters: map<nat, Waiter>,
    stoppers: map<nat, Stopper>)

  datatype Step =
    | Call(i: nat) | Lock(i: nat) | Check(i: nat) | Sleep(i: nat, remaining: nat) | Expire(i: nat) | Wake(i: nat)
    | Relock(i: nat) | Recheck(i: nat)
    | Request(j: nat) | LockToStop(j: nat) | Store(j: nat) | NotifyAll(j: nat) | Unlock(j: nat)
    | Signal

  predicate Init(s: State) {
    && !s.requested && s.holder.None?
    && (forall i :: i in s.waiters ==> s.waiters[i] == Idle)
    && (forall j :: j in s.stoppers ==> s.stoppers[j] == Away)
  }

  function Moved(s: State, i: nat, w: Waiter): State {
    s.(waiters := s.waiters[i := w])
  }

  function Advanced(s: State, j: nat, p: Stopper): State {
    s.(stoppers := s.stoppers[j := p])
  }

  predicate WaiterAt(s: State, i: nat, w: Waiter) {
    i in s.waiters && s.waiters[i] == w
  }

  predicate StopperAt(s: State, j: nat, p: Stopper) {
    j in s.stoppers && s.stoppers[j] == p
  }

  /** How long one wait may last: a signal cannot notify, so an external flag is polled. */
  function Slice(externallySet: bool, remaining: nat): nat {
    if externallySet && remaining > SIGNAL_POLL_INTERVAL then SIGNAL_POLL_INTERVAL else remaining
  }

  /** `notify_all`. */
  function WakeAll(waiters: map<nat, Waiter>): map<nat, Waiter> {
    map i | i in waiters :: if waiters[i].Sleeping? then Woken else waiters[i]
  }

  predicate Next(s: State, step: Step, t: State) {
    match step
    case Call(i) =>
      i in s.waiters && (s.waiters[i].Idle? || s.waiters[i].Returned?) && t == Moved(s, i, Entering)
    case Lock(i) =>
      WaiterAt(s, i, Entering) && s.holder.None? && t == Moved(s, i, Checking).(holder := Some(W(i)))
    case Check(i) =>
      WaiterAt(s, i, Checking)
      && t == if s.requested then Moved(s, i, Returned(true)).(holder := None) else Moved(s, i, Deciding)
    case Sleep(i, remaining) =>
      WaiterAt(s, i, Deciding) && remaining > 0
      && t == Moved(s, i, Sleeping(Slice(s.externallySet, remaining))).(holder := None)
    case Expire(i) =>
      WaiterAt(s, i, Deciding) && t == Moved(s, i, Returned(s.requested)).(holder := None)
    case Wake(i) =>
      i in s.waiters && s.waiters[i].Sleeping? && t == Moved(s, i, Woken)
    case Relock(i) =>
      WaiterAt(s, i, Woken) && s.holder.None? && t == Moved(s, i, Rechecking).(holder := Some(W(i)))
    case Recheck(i) =>
      WaiterAt(s, i, Rechecking)
      && t == if s.requested then Moved(s, i, Returned(true)).(holder := None) else Moved(s, i, Deciding)
    case Request(j) =>
      j in s.stoppers && (s.stoppers[j].Away? || s.stoppers[j].Done?) && t == Advanced(s, j, Requesting)
    case LockToStop(j) =>
      StopperAt(s, j, Requesting) && s.holder.None? && t == Advanced(s, j, Locked).(holder := Some(S(j)))
    case Store(j) =>
      StopperAt(s, j, Locked) && t == Advanced(s, j, Stored).(requested := true)
    case NotifyAll(j) =>
      StopperAt(s, j, Stored) && t == Advanced(s, j, Notified).(waiters := WakeAll(s.waiters))
    case Unlock(j) =>
      StopperAt(s, j, Notified) && t == Advanced(s, j, Done).(holder := None)
    case Signal =>
      s.externallySet && t == s.(requested := true)
  }

  ghost predicate Run(states: seq<State>, steps: seq<Step>) {
    && |states| == |steps| + 1
    && Init(states[0])
    && (forall i :: 0 <= i < |steps| ==> Next(states[i], steps[i], states[i + 1]))
  }

  // ----- The invariant

  predicate HoldsAsWaiter(w: Waiter) {
    w.Checking? || w.Deciding? || w.Rechecking?
  }

  predicate HoldsAsStopper(p: Stopper) {
    p.Locked? || p.Stored? || p.Notified?
  }

  /** Exactly the actor that is inside the critical section is recorded as the holder. */
  ghost predicate Exclusive(s: State) {
    && (forall i :: i in s.waiters ==> (HoldsAsWaiter(s.waiters[i]) <==> s.holder == Some(W(i))))
    && (forall j :: j in s.stoppers ==> (HoldsAsStopper(s.stoppers[j]) <==> s.holder == Some(S(j))))
  }

  /** Some `request_stop` got past storing the flag, or past notifying. */
  ghost predicate AfterStore(s: State) {
    exists j :: j in s.stoppers && (s.stoppers[j].Stored? || s.stoppers[j].Notified? || s.stoppers[j].Done?)
  }

  ghost predicate AfterNotify(s: State) {
    exists j :: j in s.stoppers && (s.stoppers[j].Notified? || s.stoppers[j].Done?)
  }

  ghost predicate Invariant(s: State, stored: bool, notified: bool) {
    && Exclusive(s)
    && (stored ==> s.requested && forall i :: i in s.waiters ==> !s.waiters[i].Deciding?)
    && (notified ==> stored && forall i :: i in s.waiters ==> !s.waiters[i].Sleeping?)
    && (AfterStore(s) ==> stored)
    && (AfterNotify(s) ==> notified)
    && (forall i :: i in s.waiters && s.waiters[i].Sleeping? && s.externallySet ==>
                      s.waiters[i].slice <= SIGNAL_POLL_INTERVAL)
    && (s.requested && !s.externallySet ==> stored)
    && (stored && !notified ==> exists j :: j in s.stoppers && s.stoppers[j].Stored?)
  }

  /** Storing and notifying are events that stay true once they have happened. */
  function StoredBy(stored: bool, step: Step): bool {
    stored || step.Store?
  }

  function NotifiedBy(notified: bool, step: Step): bool {
    notified || step.NotifyAll?
  }

  lemma InitHolds(s: State)
    requires Init(s)
    ensures Invariant(s, false, false)
  {
  }

  lemma StepKeepsExclusive(s: State, step: Step, t: State)
    requires Exclusive(s) && Next(s, step, t)
    ensures Exclusive(t)
  {
  }

  lemma StepKeepsInvariant(s: State, step: Step, t: State, stored: bool, notified: bool)
    requires Invariant(s, stored, notified) && Next(s, step, t)
    ensures Invariant(t, StoredBy(stored, step), NotifiedBy(notified, step))
  {
    StepKeepsExclusive(s, step, t);
    StoreFindsNoDecider(s, step, t, stored, notified);
    StoppersProgress(s, step, t, stored, notified);
  }

  lemma StoreFindsNoDecider(s: State, step: Step, t: State, stored: bool, notified: bool)
    requires Invariant(s, stored, notified) && Next(s, step, t)
    ensures StoredBy(stored, step) ==> t.requested && forall i :: i in t.waiters ==> !t.waiters[i].Deciding?
    ensures NotifiedBy(notified, step) ==>
              StoredBy(stored, step) && forall i :: i in t.waiters ==> !t.waiters[i].Sleeping?
  {
    hide AfterNotify;
    if step.NotifyAll? {
      assert AfterStore(s);
    }
  }

  lemma StoppersProgress(s: State, step: Step, t: State, stored: bool, notified: bool)
    requires Invariant(s, stored, notified) && Next(s, step, t)
    ensures AfterStore(t) ==> StoredBy(stored, step)
    ensures AfterNotify(t) ==> NotifiedBy(notified, step)
    ensures StoredBy(stored, step) && !NotifiedBy(notified, step) ==>
              exists j :: j in t.stoppers && t.stoppers[j].Stored?
  {
    hide Exclusive, Next, AfterStore, AfterNotify;
    StoresSpread(s, step, t);
    NotifiesSpread(s, step, t);
    if StoredBy(stored, step) && !NotifiedBy(notified, step) {
      StoredStays(s, step, t);
    }
  }

  lemma StoresSpread(s: State, step: Step, t: State)
    requires Next(s, step, t)
    ensures AfterStore(t) ==> AfterStore(s) || step.Store?
  {
    if AfterStore(t) && !step.Store? {
      var j :| j in t.stoppers && (t.stoppers[j].Stored? || t.stoppers[j].Notified? || t.stoppers[j].Done?);
      assert j in s.stoppers && (s.stoppers[j].Stored? || s.stoppers[j].Notified? || s.stoppers[j].Done?);
    }
  }

  lemma NotifiesSpread(s: State, step: Step, t: State)
    requires Next(s, step, t)
    ensures AfterNotify(t) ==> AfterNotify(s) || step.NotifyAll?
  {
    if AfterNotify(t) && !step.NotifyAll? {
      var j :| j in t.stoppers && (t.stoppers[j].Notified? || t.stoppers[j].Done?);
      assert j in s.stoppers && (s.stoppers[j].Notified? || s.stoppers[j].Done?);
    }
  }

  lemma StoredStays(s: State, step: Step, t: State)
    requires Next(s, step, t) && !step.NotifyAll?
    requires step.Store? || exists j :: j in s.stoppers && s.stoppers[j].Stored?
    ensures exists j :: j in t.stoppers && t.stoppers[j].Stored?
  {
    if step.Store? {
      assert t.stoppers[step.j].Stored?;
    } else {
      var j :| j in s.stoppers && s.stoppers[j].Stored?;
      assert t.stoppers[j].Stored?;
    }
  }

  function StoredIn(steps: seq<Step>): bool {
    steps != [] && StoredBy(StoredIn(steps[..|steps| - 1]), steps[|steps| - 1])
  }

  function NotifiedIn(steps: seq<Step>): bool {
    steps != [] && NotifiedBy(NotifiedIn(steps[..|steps| - 1]), steps[|steps| - 1])
  }

  lemma {:induction false} ReachableInvariant(states: seq<State>, steps: seq<Step>, n: nat)
    requires Run(states, steps) && n < |states|
    ensures Invariant(states[n], StoredIn(steps[..n]), NotifiedIn(steps[..n]))
  {
    hide Invariant, Next;
    if n == 0 {
      InitHolds(states[0]);
      assert steps[..0] == [];
    } else {
      ReachableInvariant(states, steps, n - 1);
      assert Next(states[n - 1], steps[n - 1], states[n - 1 + 1]);
      StepKeepsInvariant(states[n - 1], steps[n - 1], states[n], StoredIn(steps[..n - 1]), NotifiedIn(steps[..n - 1]));
      assert steps[..n][..n - 1] == steps[..n - 1];
    }
  }

  // ----- No lost wakeup

  /**
   In every interleaving: once some `request_stop` has released the mutex, no waiter
   sits un-notified in the condition variable and none is about to go to sleep.
   */
  lemma NoLostWakeup(states: seq<State>, steps: seq<Step>, n: nat, j: nat)
    requires Run(states, steps) && n < |states|
    requires StopperAt(states[n], j, Done)
    ensures states[n].requested
    ensures forall i :: i in states[n].waiters ==> !states[n].waiters[i].Sleeping? && !states[n].waiters[i].Deciding?
  {
    hide Next, Exclusive;
    ReachableInvariant(states, steps, n);
    assert AfterNotify(states[n]);
  }

  /** That stays so for the rest of the run, whatever the stopper does next. */
  lemma {:induction false} StopIsForever(states: seq<State>, steps: seq<Step>, n: nat, m: nat)
    requires Run(states, steps) && n <= m < |states|
    requires NotifiedIn(steps[..n])
    ensures NotifiedIn(steps[..m])
    ensures states[m].requested
    ensures forall i :: i in states[m].waiters ==> !states[m].waiters[i].Sleeping? && !states[m].waiters[i].Deciding?
    decreases m
  {
    hide Next, Exclusive, Run;
    if n < m {
      StopIsForever(states, steps, n, m - 1);
      assert steps[..m][..m - 1] == steps[..m - 1] by { RunLength(states, steps); }
    }
    ReachableInvariant(states, steps, m);
  }

  lemma RunLength(states: seq<State>, steps: seq<Step>)
    requires Run(states, steps)
    ensures |states| == |steps| + 1
  {
  }

  /** The number of own steps a waiter still needs once the stop is notified. */
  function StepsLeft(w: Waiter): nat {
    match w
    case Entering => 2
    case Checking => 1
    case Woken => 2
    case Rechecking => 1
    case Deciding => 3
    case Sleeping(_) => 3
    case Idle => 0
    case Returned(_) => 0
  }

  /**
   After the notification every step of a waiter inside `wait_timeout` brings it
   closer to returning, it returns true, and no step of anybody else sets it back.
   */
  lemma WaiterReturnsTrue(states: seq<State>, steps: seq<Step>, n: nat, i: nat)
    requires Run(states, steps) && n < |steps| && NotifiedIn(steps[..n])
    requires i in states[n].waiters
    ensures i in states[n + 1].waiters
    ensures !steps[n].Call? ==> StepsLeft(states[n + 1].waiters[i]) <= StepsLeft(states[n].waiters[i])
    ensures steps[n].Lock? || steps[n].Check? || steps[n].Relock? || steps[n].Recheck? ==>
              steps[n].i == i ==> StepsLeft(states[n + 1].waiters[i]) < StepsLeft(states[n].waiters[i])
    ensures states[n + 1].waiters[i] != states[n].waiters[i] && states[n + 1].waiters[i].Returned? ==>
              states[n + 1].waiters[i].stop
  {
    hide Exclusive;
    ReachableInvariant(states, steps, n);
    assert Next(states[n], steps[n], states[n + 1]);
  }

  /** Without an external flag, a waiter that sleeps through a set flag is about to be notified. */
  lemma WakeupIsPending(states: seq<State>, steps: seq<Step>, n: nat, i: nat)
    requires Run(states, steps) && n < |states|
    requires states[n].requested && !states[n].externallySet
    requires i in states[n].waiters && states[n].waiters[i].Sleeping?
    ensures exists j :: j in states[n].stoppers && states[n].stoppers[j].Stored?
  {
    hide Next, Exclusive;
    ReachableInvariant(states, steps, n);
  }

  /** With an external flag, no single wait is longer than the poll interval, and it ends in a re-read. */
  lemma ExternalFlagIsPolled(states: seq<State>, steps: seq<Step>, n: nat, i: nat)
    requires Run(states, steps) && n < |states|
    requires states[n].externallySet && i in states[n].waiters && states[n].waiters[i].Sleeping?
    ensures states[n].waiters[i].slice <= SIGNAL_POLL_INTERVAL
    ensures n < |steps| && states[n + 1].waiters[i] != states[n].waiters[i] ==> states[n + 1].waiters[i] == Woken
  {
    hide Exclusive, Next;
    ReachableInvariant(states, steps, n);
    if n < |steps| {
      assert Next(states[n], steps[n], states[n + 1]);
      SleeperOnlyWakes(states[n], steps[n], states[n + 1], i);
    }
  }

  lemma SleeperOnlyWakes(s: State, step: Step, t: State, i: nat)
    requires Next(s, step, t) && i in s.waiters && s.waiters[i].Sleeping?
    ensures i in t.waiters && (t.waiters[i] == s.waiters[i] || t.waiters[i] == Woken)
  {
  }
}
