/**
 What each verbosity writes and keeps open (src/event_log.rs), level by level.
 */
module LogLevels {
  import opened Ordering
  import opened EventLog

  predicate IsFault(level: Level) {
    level == Error || level == Warn
  }

  /** What the verbosity lets through. */
  predicate Passes(configured: Level, level: Level) {
    match configured
    case Off => false
    case Error => level == Error
    case Warn => level == Error || level == Warn
    case Info => level == Error || level == Warn || level == Info
    case Debug => level == Error || level == Warn || level == Info || level == Debug
  }

  lemma VisibleByLevel(configured: Level, level: Level)
    ensures Visible(configured, level) <==> Passes(configured, level)
    ensures Visible(configured, level) ==> (IsDiagnostic(level) <==> IsFault(level))
  {
  }

  // ----- What stays open

  /** An issue of the scope that the sample shows. */
  predicate Shows(scope: string, issues: seq<Issue>, k: Id) {
    k.IssueId? && k.scope == scope && k.issue in issues
  }

  /** A complete sample at each verbosity: exactly these ids are open after it, whatever was open before. */
  lemma OpenByLevel(configured: Level, scope: string, previous: Observation, issues: seq<Issue>)
    requires WellFormed(configured, scope, previous) && !Truncates(issues)
    ensures
      var next := Next(configured, scope, previous, issues);
      var open := OpenIds(configured, scope, next);
      match configured
      case Off => open == {} && next.issues == map[]
      case Error => forall k :: k in open <==> Shows(scope, issues, k) && k.issue.level == Error
      case _ => forall k :: k in open <==> Shows(scope, issues, k) && (k.issue.level == Error || k.issue.level == Warn)
  {
    hide OpenIds, Next, WellFormed;
    CompleteSampleDecides(configured, scope, previous, issues);
    if configured == Off {
      NextIsWellFormed(configured, scope, previous, issues);
      NothingIsKnown(scope, Next(Off, scope, previous, issues));
    }
  }

  lemma NothingIsKnown(scope: string, o: Observation)
    requires WellFormed(Off, scope, o)
    ensures o.issues == map[]
    ensures OpenIds(Off, scope, o) == {}
  {
    assert forall k :: k in o.issues ==> !KnownIssue(Off, scope, k);
  }

  // ----- What is written

  lemma EntriesDiffer(scope: string, x: Issue, y: Issue)
    ensures EntryFor(scope, x) == EntryFor(scope, y) ==> x == y
  {
  }

  /** Below the limit, an issue gets its entry exactly if it passes, is shown, and is new. */
  lemma {:induction false} NewEntryOf(configured: Level, scope: string, previous: map<Id, (Level, string)>,
                                      issues: seq<Issue>, x: Issue)
    requires |issues| <= OBSERVATION_LIMIT
    ensures EntryFor(scope, x) in NewEntries(configured, scope, previous, map[], issues)
       <==> x in issues && Visible(configured, x.level) && IssueId(scope, x) !in previous
  {
    hide Visible, EntryFor, Collect;
    if issues != [] {
      var init, issue := issues[..|issues| - 1], issues[|issues| - 1];
      NewEntryOf(configured, scope, previous, init, x);
      CollectBelowLimit(configured, scope, map[], init);
      EntriesDiffer(scope, issue, x);
      assert issues == init + [issue];
      assert KnownIssue(configured, scope, IssueId(scope, issue)) <==> Visible(configured, issue.level);
    }
  }

  /** Every entry for a new state is that of an issue of this scope. */
  lemma {:induction false} NewEntriesAreIssues(configured: Level, scope: string, previous: map<Id, (Level, string)>,
                                               start: map<Id, (Level, string)>, issues: seq<Issue>, e: Entry)
    requires e in NewEntries(configured, scope, previous, start, issues)
    ensures exists x :: e == EntryFor(scope, x) && Visible(configured, x.level)
  {
    hide Visible, EntryFor, Collect;
    var init, issue := issues[..|issues| - 1], issues[|issues| - 1];
    if e in NewEntries(configured, scope, previous, start, init) {
      NewEntriesAreIssues(configured, scope, previous, start, init, e);
    } else {
      assert e == EntryFor(scope, issue) && Visible(configured, issue.level);
    }
  }

  /** The sample shows the issue among its first 1024, and it was not remembered. */
  predicate IsNew(scope: string, previous: Observation, issues: seq<Issue>, k: Id) {
    Shows(scope, if |issues| > 1024 then issues[..1024] else issues, k) && k !in previous.issues
  }

  predicate WarnsAbout(configured: Level, scope: string, k: Id) {
    k == TruncationId(scope) && (configured == Warn || configured == Info || configured == Debug)
  }

  predicate OpensIssue(configured: Level, scope: string, previous: Observation, issues: seq<Issue>, k: Id) {
    IsNew(scope, previous, issues, k) && IsFault(k.issue.level) && Passes(configured, k.issue.level)
  }

  /** The id is opened by this sample. */
  predicate Opens(configured: Level, scope: string, previous: Observation, issues: seq<Issue>, k: Id) {
    || OpensIssue(configured, scope, previous, issues, k)
    || (WarnsAbout(configured, scope, k) && |issues| > 1024 && !previous.truncated)
  }

  /** The state is reported by this sample: information at Info and Debug, telemetry at Debug only. */
  predicate Reports(configured: Level, scope: string, previous: Observation, issues: seq<Issue>, x: Issue) {
    && IsNew(scope, previous, issues, IssueId(scope, x))
    && (|| (x.level == Info && (configured == Info || configured == Debug))
        || (x.level == Debug && configured == Debug))
  }

  /** The id is closed by this sample. */
  predicate Closes(configured: Level, scope: string, previous: Observation, issues: seq<Issue>, k: Id) {
    && |issues| <= 1024
    && (|| (k in previous.issues && k.IssueId? && IsFault(k.issue.level) && !Shows(scope, issues, k))
        || (WarnsAbout(configured, scope, k) && previous.truncated))
  }

  lemma NewByLevel(configured: Level, scope: string, previous: Observation, issues: seq<Issue>, e: Entry)
    requires !Truncates(issues) || previous.issues == map[]
    ensures
      var entries := NewEntries(configured, scope, previous.issues, Start(previous, issues), Considered(issues));
      && (e.Active? ==> (e in entries <==> OpensIssue(configured, scope, previous, issues, e.id)))
      && (e.Observed? ==> (e in entries <==> Reports(configured, scope, previous, issues, e.issue)))
      && (e.Resolved? ==> e !in entries)
  {
    hide NewEntries, Visible;
    var entries := NewEntries(configured, scope, previous.issues, map[], Considered(issues));
    if e in entries {
      NewEntriesAreIssues(configured, scope, previous.issues, map[], Considered(issues), e);
    }
    var x := match e case Active(k) => (if k.IssueId? then k.issue else Issue(Off, "", ""))
                     case Observed(x) => x
                     case Resolved(_) => Issue(Off, "", "");
    VisibleByLevel(configured, x.level);
    NewEntryOf(configured, scope, previous.issues, Considered(issues), x);
  }

  lemma GoneByLevel(configured: Level, scope: string, previous: Observation, issues: seq<Issue>, k: Id)
    requires WellFormed(configured, scope, previous)
    ensures k in Gone(configured, scope, previous, issues)
       <==> && !Truncates(issues) && k in previous.issues && k.IssueId? && IsFault(k.issue.level)
            && !Shows(scope, issues, k)
  {
    hide Collect, Visible;
    if !Truncates(issues) && k in previous.issues {
      assert KnownIssue(configured, scope, k);
      CollectBelowLimit(configured, scope, map[], issues);
      VisibleByLevel(configured, k.issue.level);
    }
  }

  /**
   What an observation writes, with every level spelled out: for every complete sample, and
   for every first one however long.
   */
  lemma WrittenByLevel(configured: Level, scope: string, previous: Observation, issues: seq<Issue>, gone: seq<Id>,
                       emitted: seq<Entry>, e: Entry)
    requires WellFormed(configured, scope, previous)
    requires Emits(configured, scope, previous, issues, gone, emitted)
    requires |issues| <= 1024 || previous.issues == map[]
    ensures e.Active? ==> (e in emitted <==> Opens(configured, scope, previous, issues, e.id))
    ensures e.Observed? ==> (e in emitted <==> Reports(configured, scope, previous, issues, e.issue))
    ensures e.Resolved? ==> (e in emitted <==> Closes(configured, scope, previous, issues, e.id))
  {
    hide NewEntries, Collect, WellFormed, Gone, Reports, OpensIssue, Passes;
    NewByLevel(configured, scope, previous, issues, e);
    VisibleByLevel(configured, Warn);
    if e.Resolved? {
      GoneByLevel(configured, scope, previous, issues, e.id);
      ClosingOf(gone, e.id);
    } else {
      OnlyClosings(gone, e);
    }
    WarnPasses(configured);
  }

  lemma WarnPasses(configured: Level)
    ensures Passes(configured, Warn) <==> configured == Warn || configured == Info || configured == Debug
  {
  }

  lemma ClosingOf(gone: seq<Id>, k: Id)
    ensures Resolved(k) in Closings(gone) <==> k in gone
  {
    if k in gone {
      var i :| 0 <= i < |gone| && gone[i] == k;
      assert Closings(gone)[i] == Resolved(k);
    }
  }

  lemma OnlyClosings(gone: seq<Id>, e: Entry)
    requires !e.Resolved?
    ensures e !in Closings(gone)
  {
  }

  /** A log that is off writes nothing. */
  lemma OffWritesNothing(scope: string, previous: Observation, issues: seq<Issue>, gone: seq<Id>, emitted: seq<Entry>)
    requires WellFormed(Off, scope, previous)
    requires Emits(Off, scope, previous, issues, gone, emitted)
    ensures emitted == []
  {
    hide Emits, Opens, Reports, Closes, WellFormed;
    NothingIsKnown(scope, previous);
    if emitted != [] {
      WrittenByLevel(Off, scope, previous, issues, gone, emitted, emitted[0]);
      NothingAtOff(scope, previous, issues, emitted[0]);
    }
  }

  lemma NothingAtOff(scope: string, previous: Observation, issues: seq<Issue>, e: Entry)
    requires previous.issues == map[]
    ensures e.Active? ==> !Opens(Off, scope, previous, issues, e.id)
    ensures e.Observed? ==> !Reports(Off, scope, previous, issues, e.issue)
    ensures e.Resolved? ==> !Closes(Off, scope, previous, issues, e.id)
  {
  }

  lemma RaisingOpensMore(lower: Level, higher: Level, scope: string, previous: Observation, issues: seq<Issue>, k: Id)
    requires Rank(lower) <= Rank(higher)
    ensures Opens(lower, scope, previous, issues, k) ==> Opens(higher, scope, previous, issues, k)
  {
    hide IsNew;
  }

  lemma RaisingReportsMore(lower: Level, higher: Level, scope: string, previous: Observation, issues: seq<Issue>,
                           x: Issue)
    requires Rank(lower) <= Rank(higher)
    ensures Reports(lower, scope, previous, issues, x) ==> Reports(higher, scope, previous, issues, x)
  {
    hide IsNew;
  }

  lemma NothingToClose(configured: Level, scope: string, issues: seq<Issue>, k: Id)
    ensures WellFormed(configured, scope, NOTHING_OBSERVED)
    ensures !Closes(configured, scope, NOTHING_OBSERVED, issues, k)
  {
  }

  /** Raising the verbosity removes no entry that a first observation writes. */
  lemma RaisingKeepsEntries(lower: Level, higher: Level, scope: string, issues: seq<Issue>, gone: seq<Id>,
                            emitted: seq<Entry>, goneHigher: seq<Id>, emittedHigher: seq<Entry>)
    requires Rank(lower) <= Rank(higher)
    requires Emits(lower, scope, NOTHING_OBSERVED, issues, gone, emitted)
    requires Emits(higher, scope, NOTHING_OBSERVED, issues, goneHigher, emittedHigher)
    ensures forall e :: e in emitted ==> e in emittedHigher
  {
    hide Emits, Opens, Reports, Closes, WellFormed;
    NothingToClose(lower, scope, issues, TruncationId(scope));
    NothingToClose(higher, scope, issues, TruncationId(scope));
    forall e | e in emitted ensures e in emittedHigher {
      WrittenByLevel(lower, scope, NOTHING_OBSERVED, issues, gone, emitted, e);
      WrittenByLevel(higher, scope, NOTHING_OBSERVED, issues, goneHigher, emittedHigher, e);
      match e
      case Active(k) => RaisingOpensMore(lower, higher, scope, NOTHING_OBSERVED, issues, k);
      case Observed(x) => RaisingReportsMore(lower, higher, scope, NOTHING_OBSERVED, issues, x);
      case Resolved(k) => NothingToClose(lower, scope, issues, k);
    }
  }
}
