/**
 The diagnostic observation log (src/event_log.rs): which diagnostics it opens and
 closes over any sequence of observations, within bounded memory.
 */
module EventLog {
  import opened Ordering

  const OBSERVATION_LIMIT: nat := 1024

  datatype Level = Off | Error | Warn | Info | Debug

  function Rank(l: Level): nat {
    match l case Off => 0 case Error => 1 case Warn => 2 case Info => 3 case Debug => 4
  }

  /** The configured verbosity lets the level through. */
  predicate Visible(configured: Level, level: Level) {
    level != Off && Rank(level) <= Rank(configured)
  }

  /** Warnings and errors are diagnostics that are opened and closed; the rest are plain states. */
  predicate IsDiagnostic(level: Level) {
    Rank(level) <= Rank(Warn)
  }

  datatype Issue = Issue(level: Level, event: string, message: string)

  /** The stable id of an issue or of a scope's truncation notice; fingerprints are taken to be injective. */
  datatype Id = IssueId(scope: string, issue: Issue) | TruncationId(scope: string)

  datatype Observation = Observation(issues: map<Id, (Level, string)>, truncated: bool)

  const NOTHING_OBSERVED := Observation(map[], false)

  datatype Entry = Active(id: Id) | Observed(issue: Issue) | Resolved(id: Id)

  // ----- One observation

  predicate Admits(configured: Level, scope: string, current: map<Id, (Level, string)>, issue: Issue) {
    && Visible(configured, issue.level)
    && IssueId(scope, issue) !in current
    && |current| < OBSERVATION_LIMIT
  }

  /** The states kept after looking at the issues in order, starting from `start`. */
  function Collect(configured: Level, scope: string, start: map<Id, (Level, string)>, issues: seq<Issue>)
    : map<Id, (Level, string)>
  {
    if issues == [] then
      start
    else
      var before, issue := Collect(configured, scope, start, issues[..|issues| - 1]), issues[|issues| - 1];
      if Admits(configured, scope, before, issue)
      then before[IssueId(scope, issue) := (issue.level, issue.event)] else before
  }

  function EntryFor(scope: string, issue: Issue): Entry {
    if IsDiagnostic(issue.level) then Active(IssueId(scope, issue)) else Observed(issue)
  }

  /** The entries for states that were admitted and were not there before. */
  function NewEntries(configured: Level, scope: string, previous: map<Id, (Level, string)>,
                      start: map<Id, (Level, string)>, issues: seq<Issue>): seq<Entry>
  {
    if issues == [] then
      []
    else
      var init, issue := issues[..|issues| - 1], issues[|issues| - 1];
      var before := Collect(configured, scope, start, init);
      NewEntries(configured, scope, previous, start, init)
      + if Admits(configured, scope, before, issue) && IssueId(scope, issue) !in previous
        then [EntryFor(scope, issue)] else []
  }

  predicate Truncates(issues: seq<Issue>) {
    |issues| > OBSERVATION_LIMIT
  }

  function Considered(issues: seq<Issue>): seq<Issue> {
    if Truncates(issues) then issues[..OBSERVATION_LIMIT] else issues
  }

  /** A truncated sample starts from what is already published, a complete one from nothing. */
  function Start(previous: Observation, issues: seq<Issue>): map<Id, (Level, string)> {
    if Truncates(issues) then previous.issues else map[]
  }

  function Next(configured: Level, scope: string, previous: Observation, issues: seq<Issue>): Observation {
    Observation(Collect(configured, scope, Start(previous, issues), Considered(issues)), Truncates(issues))
  }

  /** The diagnostics a complete sample no longer shows. */
  function Gone(configured: Level, scope: string, previous: Observation, issues: seq<Issue>): set<Id> {
    if Truncates(issues) then
      {}
    else
      set k | k in previous.issues && IsDiagnostic(previous.issues[k].0)
              && k !in Next(configured, scope, previous, issues).issues
  }

  /** The notice about truncation, if this sample changes it and warnings are logged at all. */
  function Notice(configured: Level, scope: string, previous: Observation, issues: seq<Issue>)
    : (seq<Entry>, seq<Entry>)
  {
    if Truncates(issues) == previous.truncated || !Visible(configured, Warn) then ([], [])
    else if Truncates(issues) then ([Active(TruncationId(scope))], [])
    else ([], [Resolved(TruncationId(scope))])
  }

  /** `emitted` is what one observation writes; closed diagnostics are listed in an arbitrary order. */
  ghost predicate Emits(configured: Level, scope: string, previous: Observation, issues: seq<Issue>, gone: seq<Id>,
                        emitted: seq<Entry>)
  {
    && Distinct(gone)
    && (forall k :: k in gone <==> k in Gone(configured, scope, previous, issues))
    && |gone| == |Gone(configured, scope, previous, issues)|
    && var notice := Notice(configured, scope, previous, issues);
    emitted == NewEntries(configured, scope, previous.issues, Start(previous, issues), Considered(issues))
               + notice.0 + Closings(gone) + notice.1
  }

  function Closings(gone: seq<Id>): seq<Entry> {
    seq(|gone|, i requires 0 <= i < |gone| => Resolved(gone[i]))
  }

  // ----- What the state remembers

  /** Every remembered state is an issue of this scope, stored under its own level and event. */
  ghost predicate WellFormed(configured: Level, scope: string, o: Observation) {
    && |o.issues| <= OBSERVATION_LIMIT
    && (forall k :: k in o.issues ==> KnownIssue(configured, scope, k) && o.issues[k] == (k.issue.level, k.issue.event))
  }

  predicate KnownIssue(configured: Level, scope: string, k: Id) {
    k.IssueId? && k.scope == scope && Visible(configured, k.issue.level)
  }

  /** The ids that are open in the log. */
  function OpenIds(configured: Level, scope: string, o: Observation): set<Id> {
    (set k | k in o.issues && IsDiagnostic(o.issues[k].0))
    + if o.truncated && Visible(configured, Warn) then {TruncationId(scope)} else {}
  }

  lemma {:induction false} CollectWellFormed(configured: Level, scope: string, start: map<Id, (Level, string)>,
                                             issues: seq<Issue>, truncated: bool)
    requires WellFormed(configured, scope, Observation(start, truncated))
    ensures WellFormed(configured, scope, Observation(Collect(configured, scope, start, issues), truncated))
    ensures start.Keys <= Collect(configured, scope, start, issues).Keys
  {
    if issues != [] {
      CollectWellFormed(configured, scope, start, issues[..|issues| - 1], truncated);
    }
  }

  /** Memory stays bounded: at most 1024 states are remembered, whatever is observed. */
  lemma NextIsWellFormed(configured: Level, scope: string, previous: Observation, issues: seq<Issue>)
    requires WellFormed(configured, scope, previous)
    ensures WellFormed(configured, scope, Next(configured, scope, previous, issues))
  {
    CollectWellFormed(configured, scope, Start(previous, issues), Considered(issues), Truncates(issues));
  }

  lemma {:induction false} CollectBelowLimit(configured: Level, scope: string, start: map<Id, (Level, string)>,
                                             issues: seq<Issue>)
    requires |start| + |issues| <= OBSERVATION_LIMIT
    ensures |Collect(configured, scope, start, issues)| <= |start| + |issues|
    ensures forall k :: k in Collect(configured, scope, start, issues)
                   <==> k in start || (KnownIssue(configured, scope, k) && k.issue in issues)
  {
    if issues != [] {
      var init, issue := issues[..|issues| - 1], issues[|issues| - 1];
      CollectBelowLimit(configured, scope, start, init);
      assert issues == init + [issue];
    }
  }

  /** A complete sample leaves open exactly its own warnings and errors that pass the filter. */
  lemma CompleteSampleDecides(configured: Level, scope: string, previous: Observation, issues: seq<Issue>)
    requires WellFormed(configured, scope, previous) && !Truncates(issues)
    ensures forall k :: k in OpenIds(configured, scope, Next(configured, scope, previous, issues))
                   <==> KnownIssue(configured, scope, k) && IsDiagnostic(k.issue.level) && k.issue in issues
  {
    CollectBelowLimit(configured, scope, map[], issues);
    NextIsWellFormed(configured, scope, previous, issues);
  }

  /** A truncated sample closes nothing. */
  lemma TruncatedSampleClosesNothing(configured: Level, scope: string, previous: Observation, issues: seq<Issue>,
                                     gone: seq<Id>, emitted: seq<Entry>)
    requires Truncates(issues) && WellFormed(configured, scope, previous)
    requires Emits(configured, scope, previous, issues, gone, emitted)
    ensures forall i :: 0 <= i < |emitted| ==> !emitted[i].Resolved?
    ensures OpenIds(configured, scope, previous)
              <= OpenIds(configured, scope, Next(configured, scope, previous, issues))
    ensures forall k :: k in previous.issues ==> k in Next(configured, scope, previous, issues).issues
  {
    NewEntriesOpen(configured, scope, previous.issues, Start(previous, issues), Considered(issues));
    CollectWellFormed(configured, scope, previous.issues, Considered(issues), previous.truncated);
    CollectKeepsValues(configured, scope, previous.issues, Considered(issues));
  }

  lemma {:induction false} CollectKeepsValues(configured: Level, scope: string, start: map<Id, (Level, string)>,
                                              issues: seq<Issue>)
    ensures forall k :: k in start ==> k in Collect(configured, scope, start, issues)
                                       && Collect(configured, scope, start, issues)[k] == start[k]
  {
    if issues != [] {
      CollectKeepsValues(configured, scope, start, issues[..|issues| - 1]);
    }
  }

  lemma {:induction false} NewEntriesOpen(configured: Level, scope: string, previous: map<Id, (Level, string)>,
                                          start: map<Id, (Level, string)>, issues: seq<Issue>)
    ensures forall i :: 0 <= i < |NewEntries(configured, scope, previous, start, issues)| ==>
                          !NewEntries(configured, scope, previous, start, issues)[i].Resolved?
  {
    if issues != [] {
      NewEntriesOpen(configured, scope, previous, start, issues[..|issues| - 1]);
    }
  }

  // ----- Repetition

  lemma {:induction false} CollectFull(configured: Level, scope: string, start: map<Id, (Level, string)>,
                                       issues: seq<Issue>)
    requires forall i :: 0 <= i < |issues| ==> !Admits(configured, scope, start, issues[i])
    ensures Collect(configured, scope, start, issues) == start
    ensures forall previous :: NewEntries(configured, scope, previous, start, issues) == []
  {
    if issues != [] {
      CollectFull(configured, scope, start, issues[..|issues| - 1]);
    }
  }

  /** Once collected, an issue is either remembered, invisible, or did not fit, and none of that changes. */
  lemma {:induction false} CollectedIsSettled(configured: Level, scope: string, start: map<Id, (Level, string)>,
                                              issues: seq<Issue>)
    ensures forall i :: 0 <= i < |issues| ==>
                          !Admits(configured, scope, Collect(configured, scope, start, issues), issues[i])
  {
    if issues != [] {
      var init := issues[..|issues| - 1];
      CollectedIsSettled(configured, scope, start, init);
      assert forall i :: 0 <= i < |init| ==> init[i] == issues[i];
    }
  }

  lemma {:induction false} NothingNew(configured: Level, scope: string, previous: map<Id, (Level, string)>,
                                      start: map<Id, (Level, string)>, issues: seq<Issue>)
    requires forall k :: k in Collect(configured, scope, start, issues) ==> k in previous
    ensures NewEntries(configured, scope, previous, start, issues) == []
  {
    if issues != [] {
      CollectStepGrows(configured, scope, start, issues);
      NothingNew(configured, scope, previous, start, issues[..|issues| - 1]);
    }
  }

  lemma CollectStepGrows(configured: Level, scope: string, start: map<Id, (Level, string)>, issues: seq<Issue>)
    requires issues != []
    ensures Collect(configured, scope, start, issues[..|issues| - 1]).Keys
              <= Collect(configured, scope, start, issues).Keys
  {
  }

  /** Observing the same sample again writes nothing and remembers the same. */
  lemma RepeatingEmitsNothing(configured: Level, scope: string, previous: Observation, issues: seq<Issue>,
                              gone: seq<Id>, emitted: seq<Entry>)
    requires Emits(configured, scope, Next(configured, scope, previous, issues), issues, gone, emitted)
    ensures Next(configured, scope, Next(configured, scope, previous, issues), issues)
              == Next(configured, scope, previous, issues)
    ensures emitted == []
  {
    var once := Next(configured, scope, previous, issues);
    var start, considered := Start(previous, issues), Considered(issues);
    if Truncates(issues) {
      CollectedIsSettled(configured, scope, start, considered);
      CollectFull(configured, scope, once.issues, considered);
    } else {
      NothingNew(configured, scope, once.issues, map[], considered);
    }
    assert Gone(configured, scope, once, issues) == {};
  }

  // ----- Matched opening and closing

  /** The entries that open or close `id`: true for an opening. */
  function Project(trace: seq<Entry>, id: Id): seq<bool> {
    if trace == [] then
      []
    else
      var init, e := Project(trace[..|trace| - 1], id), trace[|trace| - 1];
      match e
      case Active(k) => if k == id then init + [true] else init
      case Resolved(k) => if k == id then init + [false] else init
      case Observed(_) => init
  }

  lemma {:induction false} ProjectConcat(s: seq<Entry>, t: seq<Entry>, id: Id)
    ensures Project(s + t, id) == Project(s, id) + Project(t, id)
  {
    if t == [] {
      assert s + t == s;
    } else {
      ProjectConcat(s, t[..|t| - 1], id);
      assert (s + t)[..|s + t| - 1] == s + t[..|t| - 1];
    }
  }

  lemma {:induction false} ProjectNew(configured: Level, scope: string, previous: map<Id, (Level, string)>,
                                      start: map<Id, (Level, string)>, issues: seq<Issue>, id: Id)
    requires start == previous || start == map[]
    ensures Project(NewEntries(configured, scope, previous, start, issues), id)
         == if && id.IssueId? && IsDiagnostic(id.issue.level) && id !in previous
               && id in Collect(configured, scope, start, issues)
            then [true] else []
  {
    hide IsDiagnostic, Visible, Project;
    if issues == [] {
      EmptyAlternates(id);
    } else {
      var init, issue := issues[..|issues| - 1], issues[|issues| - 1];
      ProjectNew(configured, scope, previous, start, init, id);
      var before := NewEntries(configured, scope, previous, start, init);
      assert before + [] == before;
      ProjectConcat(before, [EntryFor(scope, issue)], id);
      ProjectSingle(EntryFor(scope, issue), id);
    }
  }

  lemma {:induction false} ProjectClosings(gone: seq<Id>, id: Id)
    requires Distinct(gone)
    ensures Project(Closings(gone), id) == if id in gone then [false] else []
  {
    if gone != [] {
      var init, k := gone[..|gone| - 1], gone[|gone| - 1];
      ProjectClosings(init, id);
      assert gone == init + [k];
      assert Closings(gone)[..|gone| - 1] == Closings(init);
    }
  }

  lemma ProjectSingle(e: Entry, id: Id)
    ensures Project([e], id) == match e
                                case Active(k) => if k == id then [true] else []
                                case Resolved(k) => if k == id then [false] else []
                                case Observed(_) => []
  {
    assert [e][..0] == [];
  }

  /** An observation writes exactly the change of the open set: one entry per id that changes, none otherwise. */
  lemma EmitsTheChange(configured: Level, scope: string, previous: Observation, issues: seq<Issue>, gone: seq<Id>,
                       emitted: seq<Entry>, id: Id)
    requires WellFormed(configured, scope, previous)
    requires Emits(configured, scope, previous, issues, gone, emitted)
    ensures
      var was := id in OpenIds(configured, scope, previous);
      var now := id in OpenIds(configured, scope, Next(configured, scope, previous, issues));
      Project(emitted, id) == if now && !was then [true] else if was && !now then [false] else []
  {
    hide Project, NewEntries, Collect, OpenIds, WellFormed;
    var start, considered := Start(previous, issues), Considered(issues);
    var notice := Notice(configured, scope, previous, issues);
    var after := Next(configured, scope, previous, issues);
    NextIsWellFormed(configured, scope, previous, issues);
    NewOrStart(configured, scope, previous, issues);
    ProjectParts(NewEntries(configured, scope, previous.issues, start, considered), notice.0, Closings(gone), notice.1,
                 id);
    ProjectClosings(gone, id);
    ProjectNotice(configured, scope, previous, issues, id);
    ProjectNew(configured, scope, previous.issues, start, considered, id);
    IsOpenMeans(configured, scope, previous, id);
    IsOpenMeans(configured, scope, after, id);
  }

  lemma IsOpenMeans(configured: Level, scope: string, o: Observation, id: Id)
    requires WellFormed(configured, scope, o)
    ensures id.IssueId? ==> (id in OpenIds(configured, scope, o) <==> id in o.issues && IsDiagnostic(id.issue.level))
    ensures id.TruncationId? ==>
              id !in o.issues
              && (id in OpenIds(configured, scope, o) <==>
                  o.truncated && Visible(configured, Warn) && id.scope == scope)
    ensures id in o.issues ==> o.issues[id].0 == id.issue.level
  {
  }

  lemma NewOrStart(configured: Level, scope: string, previous: Observation, issues: seq<Issue>)
    ensures Start(previous, issues) == previous.issues || Start(previous, issues) == map[]
    ensures Truncates(issues) ==> forall k :: k in previous.issues ==>
                                                k in Next(configured, scope, previous, issues).issues
                                                && Next(configured, scope, previous, issues).issues[k]
                                                   == previous.issues[k]
  {
    if Truncates(issues) {
      CollectKeepsValues(configured, scope, previous.issues, Considered(issues));
    }
  }

  lemma ProjectParts(a: seq<Entry>, b: seq<Entry>, c: seq<Entry>, d: seq<Entry>, id: Id)
    ensures Project(a + b + c + d, id) == Project(a, id) + Project(b, id) + Project(c, id) + Project(d, id)
  {
    ProjectConcat(a + b + c, d, id);
    ProjectConcat(a + b, c, id);
    ProjectConcat(a, b, id);
  }

  lemma ProjectNotice(configured: Level, scope: string, previous: Observation, issues: seq<Issue>, id: Id)
    ensures
      var notice := Notice(configured, scope, previous, issues);
      var changes := Visible(configured, Warn) && id == TruncationId(scope) && Truncates(issues) != previous.truncated;
      && Project(notice.0, id) == (if changes && Truncates(issues) then [true] else [])
      && Project(notice.1, id) == (if changes && !Truncates(issues) then [false] else [])
  {
    ProjectSingle(Active(TruncationId(scope)), id);
    ProjectSingle(Resolved(TruncationId(scope)), id);
  }

  // ----- Runs

  datatype Step = Step(scope: string, issues: seq<Issue>, gone: seq<Id>, emitted: seq<Entry>)

  type Memory = map<string, Observation>

  function At(m: Memory, scope: string): Observation {
    if scope in m then m[scope] else NOTHING_OBSERVED
  }

  /** The memory after a run of non-overlapping observations, of any scopes in any order. */
  function MemoryAfter(configured: Level, steps: seq<Step>): Memory {
    if steps == [] then
      map[]
    else
      var before, s := MemoryAfter(configured, steps[..|steps| - 1]), steps[|steps| - 1];
      before[s.scope := Next(configured, s.scope, At(before, s.scope), s.issues)]
  }

  ghost predicate Run(configured: Level, steps: seq<Step>) {
    steps == [] ||
    (&& Run(configured, steps[..|steps| - 1])
     && var s := steps[|steps| - 1];
     Emits(configured, s.scope, At(MemoryAfter(configured, steps[..|steps| - 1]), s.scope), s.issues, s.gone,
           s.emitted))
  }

  function Trace(steps: seq<Step>): seq<Entry> {
    if steps == [] then [] else Trace(steps[..|steps| - 1]) + steps[|steps| - 1].emitted
  }

  ghost predicate AllWellFormed(configured: Level, m: Memory) {
    forall scope :: WellFormed(configured, scope, At(m, scope))
  }

  predicate IsOpen(configured: Level, m: Memory, id: Id) {
    id in OpenIds(configured, id.scope, At(m, id.scope))
  }

  lemma {:induction false} RunWellFormed(configured: Level, steps: seq<Step>)
    ensures AllWellFormed(configured, MemoryAfter(configured, steps))
  {
    hide WellFormed, Next;
    if steps == [] {
      forall scope ensures WellFormed(configured, scope, NOTHING_OBSERVED) {
        NothingIsWellFormed(configured, scope);
      }
    } else {
      var before, s := MemoryAfter(configured, steps[..|steps| - 1]), steps[|steps| - 1];
      RunWellFormed(configured, steps[..|steps| - 1]);
      NextIsWellFormed(configured, s.scope, At(before, s.scope), s.issues);
      var after := MemoryAfter(configured, steps);
      forall scope ensures WellFormed(configured, scope, At(after, scope)) {
        if scope != s.scope {
          assert At(after, scope) == At(before, scope);
        }
      }
    }
  }

  lemma NothingIsWellFormed(configured: Level, scope: string)
    ensures WellFormed(configured, scope, NOTHING_OBSERVED)
  {
  }

  predicate Alternates(s: seq<bool>) {
    forall i :: 0 <= i < |s| ==> s[i] == (i % 2 == 0)
  }

  lemma OpenIdsBelongToScope(configured: Level, scope: string, o: Observation, id: Id)
    requires WellFormed(configured, scope, o) && id in OpenIds(configured, scope, o)
    ensures id.scope == scope
  {
  }

  /**
   In every run, the entries of each diagnostic strictly alternate between active
   and resolved, beginning with active, and it is open exactly when the last is active.
   */
  lemma {:induction false} EntriesAlternate(configured: Level, steps: seq<Step>, id: Id)
    requires Run(configured, steps)
    ensures Alternates(Project(Trace(steps), id))
    ensures IsOpen(configured, MemoryAfter(configured, steps), id) <==> |Project(Trace(steps), id)| % 2 == 1
  {
    hide Emits, WellFormed, Next, OpenIds, Alternates, Project;
    if steps == [] {
      EmptyAlternates(id);
      NothingIsOpen(configured, id);
    } else {
      var init, s := steps[..|steps| - 1], steps[|steps| - 1];
      EntriesAlternate(configured, init, id);
      var before := MemoryAfter(configured, init);
      RunWellFormed(configured, init);
      ProjectConcat(Trace(init), s.emitted, id);
      StepProjection(configured, before, s, id);
      AlternationStep(Project(Trace(init), id), Project(s.emitted, id), IsOpen(configured, before, id),
                      IsOpen(configured, MemoryAfter(configured, steps), id));
    }
  }

  lemma AlternationStep(s: seq<bool>, e: seq<bool>, was: bool, now: bool)
    requires Alternates(s) && (was <==> |s| % 2 == 1)
    requires e == if now && !was then [true] else if was && !now then [false] else []
    ensures Alternates(s + e) && (now <==> |s + e| % 2 == 1)
  {
  }

  lemma EmptyAlternates(id: Id)
    ensures Project([], id) == [] && Alternates([])
  {
  }

  lemma NothingIsOpen(configured: Level, id: Id)
    ensures id !in OpenIds(configured, id.scope, NOTHING_OBSERVED)
  {
  }

  lemma StepProjection(configured: Level, before: Memory, s: Step, id: Id)
    requires AllWellFormed(configured, before)
    requires Emits(configured, s.scope, At(before, s.scope), s.issues, s.gone, s.emitted)
    ensures
      var after := before[s.scope := Next(configured, s.scope, At(before, s.scope), s.issues)];
      var was, now := IsOpen(configured, before, id), IsOpen(configured, after, id);
      Project(s.emitted, id) == if now && !was then [true] else if was && !now then [false] else []
  {
    hide Emits, WellFormed, Next, OpenIds;
    var o := At(before, s.scope);
    NextIsWellFormed(configured, s.scope, o, s.issues);
    EmitsTheChange(configured, s.scope, o, s.issues, s.gone, s.emitted, id);
    if id.scope != s.scope {
      if id in OpenIds(configured, s.scope, o) {
        OpenIdsBelongToScope(configured, s.scope, o, id);
      }
      if id in OpenIds(configured, s.scope, Next(configured, s.scope, o, s.issues)) {
        OpenIdsBelongToScope(configured, s.scope, Next(configured, s.scope, o, s.issues), id);
      }
    }
  }

  // ----- The log as the program keeps it

  /** Which writes the disk accepts, by sequence number. */
  type Disk = nat -> bool

  /** How many of `n` writes starting after sequence number `sequence` succeed before the first failure. */
  function Accepted(disk: Disk, sequence: nat, n: nat): nat
    decreases n
  {
    if n == 0 || !disk(sequence + 1) then 0 else 1 + Accepted(disk, sequence + 1, n - 1)
  }

  lemma {:induction false} AcceptedAtMost(disk: Disk, sequence: nat, n: nat)
    ensures Accepted(disk, sequence, n) <= n
    decreases n
  {
    if n > 0 {
      AcceptedAtMost(disk, sequence + 1, n - 1);
    }
  }

  class EventLog {
    const configured: Level
    var active: bool
    var sequence: nat
    var written: seq<Entry>
    var previous: Memory

    /** What every observation so far would have written to a disk that never fails. */
    ghost var history: seq<Step>

    /** The log is a prefix of the full trace, and all of it while the writer is there. */
    ghost predicate Valid()
      reads this
    {
      && Run(configured, history)
      && written <= Trace(history)
      && (active ==> written == Trace(history) && previous == MemoryAfter(configured, history))
    }

    constructor (configured: Level)
      ensures this.configured == configured && active && sequence == 0 && written == [] && previous == map[]
      ensures Valid() && history == []
    {
      this.configured := configured;
      active, sequence, written, previous := true, 0, [], map[];
      history := [];
    }

    /** Appends one entry; the first failure closes the writer for good. */
    method Record(entry: Entry, disk: Disk)
      modifies `active, `sequence, `written
      ensures sequence == old(sequence) + 1
      ensures active == (old(active) && disk(sequence))
      ensures written == old(written) + if active then [entry] else []
    {
      sequence := sequence + 1;
      if active {
        if disk(sequence) {
          written := written + [entry];
        } else {
          active := false;
        }
      }
    }

    method RecordAll(entries: seq<Entry>, disk: Disk)
      requires active
      modifies `active, `sequence, `written
      ensures
        var n := Accepted(disk, old(sequence), |entries|);
        && n <= |entries|
        && written == old(written) + entries[..n]
        && active == (n == |entries|)
    {
      AcceptedAtMost(disk, sequence, |entries|);
      for i := 0 to |entries|
        invariant sequence == old(sequence) + i
        invariant active ==> written == old(written) + entries[..i]
        invariant active ==> Accepted(disk, old(sequence), |entries|) == i + Accepted(disk, sequence, |entries| - i)
        invariant !active ==> var n := Accepted(disk, old(sequence), |entries|);
                              n < i && written == old(written) + entries[..n]
      {
        Record(entries[i], disk);
        assert entries[..i + 1] == entries[..i] + [entries[i]];
      }
      assert entries[..|entries|] == entries;
    }

    /** The pass over the sample that decides what is kept and what is new. */
    method CollectIssues(scope: string, before: Observation, issues: seq<Issue>)
      returns (current: map<Id, (Level, string)>, added: seq<Entry>)
      ensures current == Collect(configured, scope, Start(before, issues), Considered(issues))
      ensures added == NewEntries(configured, scope, before.issues, Start(before, issues), Considered(issues))
    {
      hide Visible, IsDiagnostic;
      var considered := Considered(issues);
      ghost var start := Start(before, issues);
      current, added := Start(before, issues), [];
      for i := 0 to |considered|
        invariant current == Collect(configured, scope, start, considered[..i])
        invariant added == NewEntries(configured, scope, before.issues, start, considered[..i])
      {
        var issue := considered[i];
        assert considered[..i + 1][..i] == considered[..i];
        if Admits(configured, scope, current, issue) {
          current := current[IssueId(scope, issue) := (issue.level, issue.event)];
          if IssueId(scope, issue) !in before.issues {
            added := added + [EntryFor(scope, issue)];
          }
        }
      }
      assert considered[..|considered|] == considered;
    }

    /** Lists the diagnostics that are gone. */
    method ListGone(gone: set<Id>) returns (listed: seq<Id>)
      ensures Distinct(listed) && (forall k :: k in listed <==> k in gone) && |listed| == |gone|
    {
      listed := [];
      var rest := gone;
      while rest != {}
        invariant rest <= gone && Distinct(listed)
        invariant forall k :: k in listed <==> k in gone - rest
        invariant |listed| + |rest| == |gone|
        decreases |rest|
      {
        var k :| k in rest;
        assert k !in listed;
        listed := listed + [k];
        rest := rest - {k};
      }
    }

    /** One observation: remembers the new state, then writes what changed. */
    method Observe(scope: string, issues: seq<Issue>, disk: Disk) returns (step: Step)
      requires Valid()
      modifies this
      ensures Valid() && |history| == |old(history)| + 1 && old(history) <= history
      ensures history[|old(history)|].scope == scope && history[|old(history)|].issues == issues
      ensures !old(active) ==> previous == old(previous) && written == old(written) && !active
      ensures old(active) ==>
                && step.scope == scope && step.issues == issues && history == old(history) + [step]
                && Emits(configured, scope, At(old(previous), scope), issues, step.gone, step.emitted)
                && previous == old(previous)[scope := Next(configured, scope, At(old(previous), scope), issues)]
      ensures old(active) ==>
                var n := Accepted(disk, old(sequence), |step.emitted|);
                && n <= |step.emitted|
                && written == old(written) + step.emitted[..n]
                && active == (n == |step.emitted|)
    {
      hide Collect, Emits, MemoryAfter, Run, Trace, Accepted, Notice, Gone;
      step := Step(scope, issues, [], []);
      if !active {
        ghost var ideal := StepCanHappen(configured, scope, At(MemoryAfter(configured, history), scope), issues);
        OneMoreStep(configured, history, ideal);
        history := history + [ideal];
        return;
      }
      var before := At(previous, scope);
      var current, added := CollectIssues(scope, before, issues);
      var gone := ListGone(Gone(configured, scope, before, issues));
      var notice := Notice(configured, scope, before, issues);
      var emitted := added + notice.0 + Closings(gone) + notice.1;
      previous := previous[scope := Observation(current, Truncates(issues))];
      step := Step(scope, issues, gone, emitted);
      EmitsAsListed(configured, before, step);
      OneMoreStep(configured, history, step);
      RecordAll(emitted, disk);
      history := history + [step];
      assert emitted[..|emitted|] == emitted;
    }

    /** Any sequence of observations of any scopes, whatever the disk does. */
    method ObserveAll(samples: seq<(string, seq<Issue>)>, disk: Disk)
      requires Valid()
      modifies this
      ensures Valid() && old(history) <= history && |history| == |old(history)| + |samples|
      ensures forall i :: 0 <= i < |samples| ==>
                var s := history[|old(history)| + i]; s.scope == samples[i].0 && s.issues == samples[i].1
    {
      hide Valid;
      for i := 0 to |samples|
        invariant Valid() && old(history) <= history && |history| == |old(history)| + i
        invariant forall j :: 0 <= j < i ==>
                    var s := history[|old(history)| + j]; s.scope == samples[j].0 && s.issues == samples[j].1
      {
        var _ := Observe(samples[i].0, samples[i].1, disk);
      }
    }
  }

  lemma EmitsAsListed(configured: Level, before: Observation, s: Step)
    requires Distinct(s.gone) && (forall k :: k in s.gone <==> k in Gone(configured, s.scope, before, s.issues))
    requires |s.gone| == |Gone(configured, s.scope, before, s.issues)|
    requires s.emitted == NewEntries(configured, s.scope, before.issues, Start(before, s.issues), Considered(s.issues))
                          + Notice(configured, s.scope, before, s.issues).0 + Closings(s.gone)
                          + Notice(configured, s.scope, before, s.issues).1
    ensures Emits(configured, s.scope, before, s.issues, s.gone, s.emitted)
  {
  }

  lemma OneMoreStep(configured: Level, steps: seq<Step>, s: Step)
    requires Run(configured, steps)
    requires Emits(configured, s.scope, At(MemoryAfter(configured, steps), s.scope), s.issues, s.gone, s.emitted)
    ensures Run(configured, steps + [s]) && Trace(steps + [s]) == Trace(steps) + s.emitted
    ensures MemoryAfter(configured, steps + [s])
         == var before := MemoryAfter(configured, steps);
            before[s.scope := Next(configured, s.scope, At(before, s.scope), s.issues)]
  {
    hide Emits, Next;
    assert (steps + [s])[..|steps|] == steps;
  }

  /** Every sample can be observed in every state. */
  lemma StepCanHappen(configured: Level, scope: string, before: Observation, issues: seq<Issue>) returns (s: Step)
    ensures s.scope == scope && s.issues == issues
    ensures Emits(configured, scope, before, issues, s.gone, s.emitted)
  {
    var gone := InSomeOrder(Gone(configured, scope, before, issues));
    var notice := Notice(configured, scope, before, issues);
    s := Step(scope, issues, gone,
              NewEntries(configured, scope, before.issues, Start(before, issues), Considered(issues))
              + notice.0 + Closings(gone) + notice.1);
  }

  lemma InSomeOrder(ids: set<Id>) returns (listed: seq<Id>)
    ensures Distinct(listed) && (forall k :: k in listed <==> k in ids) && |listed| == |ids|
  {
    listed := [];
    if ids != {} {
      var k :| k in ids;
      var rest := InSomeOrder(ids - {k});
      listed := rest + [k];
    }
  }

  // ----- The written log

  lemma {:induction false} PrefixProjects(s: seq<Entry>, t: seq<Entry>, id: Id)
    requires s <= t
    ensures Project(s, id) <= Project(t, id)
  {
    assert t == s + t[|s|..];
    ProjectConcat(s, t[|s|..], id);
  }

  /**
   Whatever the disk did: the entries of each diagnostic in the log alternate, and while
   the writer is there, the last one is active exactly if the diagnostic is open.
   */
  lemma WrittenLogAlternates(log: EventLog, id: Id)
    requires log.Valid()
    ensures Alternates(Project(log.written, id))
    ensures log.active ==> (IsOpen(log.configured, log.previous, id) <==> |Project(log.written, id)| % 2 == 1)
  {
    hide Run, Project, MemoryAfter, Trace, IsOpen;
    EntriesAlternate(log.configured, log.history, id);
    PrefixProjects(log.written, Trace(log.history), id);
  }

  /** The memory of a log that is still written is bounded in every scope. */
  lemma LogMemoryIsBounded(log: EventLog, scope: string)
    requires log.Valid() && log.active
    ensures WellFormed(log.configured, scope, At(log.previous, scope))
  {
    hide Run, MemoryAfter, Trace, WellFormed;
    RunWellFormed(log.configured, log.history);
  }
}
