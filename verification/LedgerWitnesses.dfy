/**
 Runs of the ledger that really happen: a prepare under an id that wedges it, a run
 that reopens a member of a full ledger, and a complete deletion of one session.
 */
module LedgerWitnesses {
  import opened Options
  import opened Ordering
  import opened Text
  import opened Tokens
  import opened Dataset
  import opened Records
  import opened Ledger
  import opened LedgerRuns
  import opened Overlay
  import opened OverlayLaws
  import opened Deletion

  // ----- A ledger in which sizes do not matter

  ghost function Roomy(): Environment {
    Environment(false, s => "", r => 0)
  }

  function PlainRecord(thread: string, calls: seq<UsageCall>): Record {
    Record(thread, "", None, None, None, None, None, 0, None, Pending, calls, [], [])
  }

  lemma {:induction false} NoBytes(sessions: map<string, Session>)
    ensures TotalBytes(Roomy(), sessions) == 0
    decreases |sessions|
  {
    if sessions == map[] {
      assert Sizes(Roomy(), sessions) == map[];
    } else {
      var t :| t in sessions;
      TotalBytesPullsOut(Roomy(), sessions, t);
      assert (sessions - {t}).Keys == sessions.Keys - {t} && |sessions.Keys - {t}| < |sessions.Keys|;
      NoBytes(sessions - {t});
    }
  }

  lemma {:induction false} NoCaptureBytes(records: seq<Record>)
    ensures CaptureBytes(Roomy(), records) == 0
  {
    if records != [] {
      NoCaptureBytes(records[..|records| - 1]);
    }
  }

  lemma RoomyBudget(l: Tables)
    ensures WithinBudget(Roomy(), l, LEDGER_READ_BUDGET) <==> |l.sessions| <= MAX_RECORDS
  {
    NoBytes(l.sessions);
  }

  lemma {:induction false} ThreadCount(records: seq<Record>)
    requires DistinctThreads(records)
    ensures |Threads(records)| == |records|
  {
    if records != [] {
      var init, last := records[..|records| - 1], records[|records| - 1];
      ThreadCount(init);
      assert Threads(records) == Threads(init) + {last.thread};
      assert last.thread !in Threads(init);
    }
  }

  ghost function Started(l: Tables, operation: string): Tables {
    l.(operations := l.operations[operation := 0])
  }

  ghost function AfterPrepare(l: Tables, operation: string, records: seq<Record>): Tables {
    PublishAll(Started(l, operation), operation, records)
  }

  lemma PublishedKeys(l: Tables, operation: string, records: seq<Record>)
    requires DistinctThreads(records)
    ensures AfterPrepare(l, operation, records).sessions.Keys == l.sessions.Keys + Threads(records)
    ensures |AfterPrepare(l, operation, records).sessions| <= |l.sessions| + |records|
  {
    hide PublishAll;
    PublishedSessions(Started(l, operation), operation, records);
    ThreadCount(records);
    var after := AfterPrepare(l, operation, records);
    assert |after.sessions.Keys| == |after.sessions| && |l.sessions.Keys| == |l.sessions|;
    assert |l.sessions.Keys + Threads(records)| <= |l.sessions.Keys| + |Threads(records)|;
  }

  ghost predicate PlainRecords(records: seq<Record>) {
    forall i :: 0 <= i < |records| ==>
      Valid(records[i]) && records[i].status == Pending && records[i].deletedAt == None && records[i].title == ""
  }

  lemma PlainBatchIsOk(operation: string, records: seq<Record>)
    requires operation != "" && ByteLength(operation) <= 256 && records != []
    requires PlainRecords(records) && DistinctThreads(records)
    ensures BatchOk(Roomy(), operation, records) && Normals(Roomy(), records) == records
  {
    hide Valid;
    assert Normals(Roomy(), records) == records;
    NoCaptureBytes(records);
  }

  /** Captures of threads that the ledger does not know can be prepared whenever the ledger is readable and has room. */
  lemma FreshPrepareCommits(l: Tables, operation: string, records: seq<Record>)
    requires operation != "" && ByteLength(operation) <= 256 && operation !in l.operations && records != []
    requires PlainRecords(records) && DistinctThreads(records)
    requires forall i :: 0 <= i < |records| ==> records[i].thread !in l.sessions
    requires ReceiptsReadable(Roomy(), l) && |UnresolvedThreads(l) + Threads(records)| <= MAX_PENDING_RECEIPTS
    requires |l.sessions| + |records| <= MAX_RECORDS
    ensures Next(Roomy(), l, Prepare(operation, records, 0, records), AfterPrepare(l, operation, records))
  {
    hide Valid, ReceiptsReadable, WithinBudget, BatchOk, PlainRecords;
    PlainBatchIsOk(operation, records);
    PublishedKeys(l, operation, records);
    RoomyBudget(AfterPrepare(l, operation, records));
  }

  lemma EmptyIsReadable()
    ensures ReceiptsReadable(Roomy(), EMPTY_LEDGER) && UnresolvedThreads(EMPTY_LEDGER) == {}
  {
    RoomyBudget(EMPTY_LEDGER);
    NothingUnresolved();
  }

  lemma OneThread(r: Record)
    ensures Threads([r]) == {r.thread}
  {
    assert [r][0] == r;
  }

  // ----- A control character in an operation id

  lemma OneByteId(c: char)
    requires c as int < 0x80
    ensures [c] != "" && ByteLength([c]) == 1
  {
    assert [c][..0] == [];
    assert ByteLength([]) == 0;
  }

  lemma PlainRecordIsValid(thread: string)
    requires thread != "" && ByteLength(thread) <= 256
    ensures Valid(PlainRecord(thread, []))
  {
    assert ByteLength("") == 0 && !HasControl("");
  }

  /** A prepare under the id of a line feed commits, and no prepare ever commits after it. */
  lemma LineFeedIdIsAccepted() returns (states: seq<Tables>, steps: seq<Step>)
    ensures Run(Roomy(), states, steps) && |steps| == 1 && steps[0].Prepare? && steps[0].operation == "\n"
    ensures !ReceiptsReadable(Roomy(), states[1])
  {
    hide Valid, ReceiptsReadable, Next, HasControl, ByteLength;
    var r := PlainRecord("t", []);
    OneByteId('\n');
    OneByteId('t');
    PlainRecordIsValid("t");
    EmptyIsReadable();
    OneThread(r);
    assert UnresolvedThreads(EMPTY_LEDGER) + Threads([r]) == {"t"};
    FreshPrepareCommits(EMPTY_LEDGER, "\n", [r]);
    var after := AfterPrepare(EMPTY_LEDGER, "\n", [r]);
    states, steps := [EMPTY_LEDGER, after], [Prepare("\n", [r], 0, [r])];
    PublishedSessions(Started(EMPTY_LEDGER, "\n"), "\n", [r]);
    assert [r][0] == r && after.sessions["t"] == Session("\n", r);
    assert HasControl("\n") by { LineFeedIsControl(); }
    ControlCharacterWedges(Roomy(), states, steps, 1, 1, "t");
  }

  lemma LineFeedIsControl()
    ensures HasControl("\n")
  {
    assert IsControl("\n"[0]);
  }

  // ----- Reopening a member of a full ledger

  function Name(i: nat): string
    requires i <= MAX_PENDING_RECEIPTS
  {
    [(0x100 + i) as char]
  }

  lemma NameIsAllowed(i: nat)
    requires i <= MAX_PENDING_RECEIPTS
    ensures Name(i) != "" && ByteLength(Name(i)) <= 256
  {
    assert Name(i)[..0] == [];
    assert ByteLength([]) == 0;
  }

  function Batch(): seq<Record> {
    seq(MAX_PENDING_RECEIPTS, i requires 0 <= i < MAX_PENDING_RECEIPTS => PlainRecord(Name(i), []))
  }

  lemma BatchIsPlain()
    ensures PlainRecords(Batch()) && DistinctThreads(Batch()) && |Batch()| == MAX_PENDING_RECEIPTS
  {
    hide Valid, ByteLength;
    forall i | 0 <= i < MAX_PENDING_RECEIPTS ensures Valid(Batch()[i]) {
      NameIsAllowed(i);
      PlainRecordIsValid(Name(i));
    }
    forall i, j | 0 <= i < j < |Batch()| ensures Batch()[i].thread != Batch()[j].thread {
      assert Name(i)[0] != Name(j)[0];
    }
  }

  lemma OutcomeCommits(l: Tables, operation: string, t: string, status: DeletionStatus)
    requires t in l.sessions && l.sessions[t].operation == operation && Valid(l.sessions[t].record)
    requires |l.sessions| <= MAX_RECORDS
    ensures Next(Roomy(), l, SetOutcome(operation, t, status, 0), WithOutcome(l, operation, t, status, 0))
    ensures WithOutcome(l, operation, t, status, 0).sessions.Keys == l.sessions.Keys
  {
    hide WithinBudget;
    var after := WithOutcome(l, operation, t, status, 0);
    assert after.sessions.Keys == l.sessions.Keys;
    assert |after.sessions.Keys| == |after.sessions| && |l.sessions.Keys| == |l.sessions|;
    RoomyBudget(after);
    var r := l.sessions[t].record;
    assert forall i :: 0 <= i < |r.calls| ==> CallOk(r, r.calls[i]);
  }

  ghost function Full(): Tables {
    AfterPrepare(EMPTY_LEDGER, "a", Batch())
  }

  ghost function OneDeleted(): Tables
    requires Name(0) in Full().sessions
  {
    WithOutcome(Full(), "a", Name(0), Deleted, 0)
  }

  /** 512 members under one operation. */
  lemma FullLedger()
    ensures Next(Roomy(), EMPTY_LEDGER, Prepare("a", Batch(), 0, Batch()), Full())
    ensures Full().sessions.Keys == Threads(Batch()) && |Full().sessions| == MAX_PENDING_RECEIPTS
    ensures Full().operations.Keys == {"a"}
    ensures Name(0) in Full().sessions
    ensures forall t :: t in Full().sessions ==> Full().sessions[t] == Session("a", PlainRecord(t, []))
  {
    hide Valid, ReceiptsReadable, Next, PublishAll, ByteLength, PlainRecords;
    BatchIsPlain();
    OneByteId('a');
    EmptyIsReadable();
    ThreadCount(Batch());
    assert UnresolvedThreads(EMPTY_LEDGER) + Threads(Batch()) == Threads(Batch());
    FreshPrepareCommits(EMPTY_LEDGER, "a", Batch());
    PublishedSessions(Started(EMPTY_LEDGER, "a"), "a", Batch());
    assert |Full().sessions.Keys| == |Full().sessions|;
    forall t | t in Full().sessions ensures Full().sessions[t] == Session("a", PlainRecord(t, [])) {
      var i := BatchMember(t);
    }
    assert Batch()[0].thread == Name(0);
  }

  lemma BatchMember(t: string) returns (i: nat)
    requires t in Threads(Batch())
    ensures i < |Batch()| && Batch()[i] == PlainRecord(t, [])
  {
    i :| 0 <= i < |Batch()| && Batch()[i].thread == t;
  }

  lemma AllUnresolved(l: Tables, first: string)
    requires first in l.sessions && forall t :: t in l.sessions ==> l.sessions[t].record.status == Pending
    ensures UnresolvedThreads(l) == l.sessions.Keys
    ensures UnresolvedThreads(WithOutcome(l, "a", first, Deleted, 0)) == l.sessions.Keys - {first}
  {
  }

  lemma FullIsUnresolved()
    ensures Name(0) in Full().sessions && UnresolvedThreads(Full()) == Full().sessions.Keys
    ensures UnresolvedThreads(OneDeleted()) == Full().sessions.Keys - {Name(0)}
    ensures OneDeleted().operations == Full().operations
  {
    hide Full, Name, Batch, UnresolvedThreads;
    FullLedger();
    AllUnresolved(Full(), Name(0));
  }

  /** The run up to the deletion of the first member. */
  lemma FirstTwoSteps()
    ensures Name(0) in Full().sessions && |OneDeleted().sessions| == MAX_PENDING_RECEIPTS
    ensures Run(Roomy(), [EMPTY_LEDGER, Full(), OneDeleted()],
                [Prepare("a", Batch(), 0, Batch()), SetOutcome("a", Name(0), Deleted, 0)])
    ensures ReceiptsReadable(Roomy(), OneDeleted())
  {
    hide Next, Full, Valid, ReceiptsReadable, Name, HasControl, UnresolvedThreads, WithOutcome;
    FullLedger();
    FullIsUnresolved();
    NameIsAllowed(0);
    PlainRecordIsValid(Name(0));
    OutcomeCommits(Full(), "a", Name(0), Deleted);
    var states := [EMPTY_LEDGER, Full(), OneDeleted()];
    var steps := [Prepare("a", Batch(), 0, Batch()), SetOutcome("a", Name(0), Deleted, 0)];
    assert |OneDeleted().sessions.Keys| == |OneDeleted().sessions| && |Full().sessions.Keys| == |Full().sessions|;
    assert Run(Roomy(), states, steps);
    SubsetSize(Full().sessions.Keys - {Name(0)}, Full().sessions.Keys);
    assert ControlFreeIds(OneDeleted()) by { OnlyLetters(); }
    ReceiptsReadableExactly(Roomy(), states, steps, 2);
  }

  lemma OnlyLetters()
    ensures Name(0) in Full().sessions && ControlFreeIds(OneDeleted())
  {
    hide Full, Name, Batch, HasControl;
    FullLedger();
    LetterIsReadable();
    SameIdsAfterOutcome(Full(), Name(0));
  }

  lemma LetterIsReadable()
    ensures !HasControl("a")
  {
  }

  lemma SameIdsAfterOutcome(l: Tables, first: string)
    requires first in l.sessions && !HasControl("a") && forall t :: t in l.sessions ==> l.sessions[t].operation == "a"
    ensures ControlFreeIds(WithOutcome(l, "a", first, Deleted, 0))
  {
    hide HasControl;
  }

  ghost function FullAgain(): Tables
    requires Name(0) in Full().sessions
  {
    AfterPrepare(OneDeleted(), "b", [PlainRecord(Name(MAX_PENDING_RECEIPTS), [])])
  }

  lemma NewThreadIsNew()
    ensures Name(0) in Full().sessions && Name(MAX_PENDING_RECEIPTS) !in OneDeleted().sessions
  {
    hide Full;
    FullLedger();
    assert Name(MAX_PENDING_RECEIPTS) !in Threads(Batch()) by {
      forall i | 0 <= i < |Batch()| ensures Batch()[i].thread != Name(MAX_PENDING_RECEIPTS) {
        assert Name(i)[0] != Name(MAX_PENDING_RECEIPTS)[0];
      }
    }
  }

  /** One more member takes the place of the deleted one. */
  lemma ThirdStep()
    ensures Name(0) in Full().sessions
    ensures var r := PlainRecord(Name(MAX_PENDING_RECEIPTS), []);
            Next(Roomy(), OneDeleted(), Prepare("b", [r], 0, [r]), FullAgain())
    ensures |UnresolvedThreads(FullAgain())| == MAX_PENDING_RECEIPTS && Name(0) !in UnresolvedThreads(FullAgain())
    ensures Name(0) in FullAgain().sessions && |FullAgain().sessions| <= MAX_RECORDS
    ensures FullAgain().sessions[Name(0)] == Session("a", Resolved(PlainRecord(Name(0), []), Deleted, 0))
  {
    hide Next, Full, Valid, ReceiptsReadable, Name, HasControl, ByteLength, AfterPrepare, UnresolvedThreads, Run, Batch,
         Threads;
    var t := Name(MAX_PENDING_RECEIPTS);
    var r := PlainRecord(t, []);
    FirstTwoSteps();
    FullIsUnresolved();
    FullLedger();
    NewThreadIsNew();
    NameIsAllowed(MAX_PENDING_RECEIPTS);
    PlainRecordIsValid(t);
    OneByteId('b');
    var l := OneDeleted();
    OneThread(r);
    var before := Full().sessions.Keys - {Name(0)};
    assert |before| == MAX_PENDING_RECEIPTS - 1 by { assert |Full().sessions.Keys| == |Full().sessions|; }
    assert t !in before;
    FreshPrepareCommits(l, "b", [r]);
    PublishedKeys(l, "b", [r]);
    OneMoreSession(l, "b", r);
  }

  lemma OneMoreSession(l: Tables, operation: string, r: Record)
    requires r.thread !in l.sessions && r.status == Pending
    ensures var after := AfterPrepare(l, operation, [r]);
            && UnresolvedThreads(after) == UnresolvedThreads(l) + {r.thread}
            && forall t :: t in l.sessions ==> t in after.sessions && after.sessions[t] == l.sessions[t]
  {
    hide PublishAll;
    PublishedSessions(Started(l, operation), operation, [r]);
    OneThread(r);
    var after := AfterPrepare(l, operation, [r]);
    assert [r][0] == r && after.sessions[r.thread] == Session(operation, r);
    assert forall t :: t in l.sessions ==> after.sessions[t] == l.sessions[t];
  }

  /** A run in which an outcome reopens a deleted member of a full ledger, which can then not be read any more. */
  lemma OverflowingRun() returns (states: seq<Tables>, steps: seq<Step>)
    ensures Run(Roomy(), states, steps) && |steps| == 4 && ReopensFull(states[3], steps[3])
    ensures !ReceiptsReadable(Roomy(), states[4])
  {
    hide Next, Full, Valid, ReceiptsReadable, Name, UnresolvedThreads, WithOutcome, OneDeleted, FullAgain;
    FirstTwoSteps();
    ThirdStep();
    var r := PlainRecord(Name(MAX_PENDING_RECEIPTS), []);
    NameIsAllowed(0);
    PlainRecordIsValid(Name(0));
    assert Valid(Resolved(PlainRecord(Name(0), []), Deleted, 0)) by { ResolvedIsValid(PlainRecord(Name(0), [])); }
    OutcomeCommits(FullAgain(), "a", Name(0), Partial);
    var last := WithOutcome(FullAgain(), "a", Name(0), Partial, 0);
    var first := [EMPTY_LEDGER, Full(), OneDeleted()];
    var firstSteps := [Prepare("a", Batch(), 0, Batch()), SetOutcome("a", Name(0), Deleted, 0)];
    assert Next(Roomy(), first[0], firstSteps[0], first[1]) && Next(Roomy(), first[1], firstSteps[1], first[2]);
    states := first + [FullAgain(), last];
    steps := firstSteps + [Prepare("b", [r], 0, [r]), SetOutcome("a", Name(0), Partial, 0)];
    ReopeningOverflows(Roomy(), FullAgain(), steps[3], last);
  }

  lemma ResolvedIsValid(r: Record)
    requires Valid(r)
    ensures Valid(Resolved(r, Deleted, 0))
  {
    assert forall i :: 0 <= i < |r.calls| ==> CallOk(r, r.calls[i]);
  }

  // ----- A complete deletion

  function OneCall(): UsageCall {
    UsageCall(0, "t", None, None, true, None, None, NO_TOKENS.(total := 7), true)
  }

  function OneSession(): Rollout {
    Rollout([OneCall()], [Task("t", None, false, "", None, None, None, None, Idle, NO_TOKENS, 0)], [], [], [], 0)
  }

  function OneRecord(): Record {
    PlainRecord("t", [OneCall()])
  }

  lemma OneRecordIsValid()
    ensures Valid(OneRecord())
  {
    OneByteId('t');
    assert ByteLength("") == 0 && !HasControl("");
    assert CallOk(OneRecord(), OneRecord().calls[0]);
  }

  lemma OneSessionIsCaptured()
    ensures Captured(Roomy().shorten, OneSession(), [OneRecord()])
  {
    hide Valid;
    var d := OneSession();
    OneRecordIsValid();
    assert d.calls[..0] == [] && CallsOf("t", []) == [];
    assert CallsOf("t", d.calls) == [OneCall()];
    assert TurnsOf("t", d.turns) == [] && InteractionsOf("t", d.interactions) == [];
    assert FindTask("t", d.tasks) == Some(d.tasks[0]);
    assert FromDataset(Roomy().shorten, "t", "", 0, d) == Success(OneRecord());
    assert IsCapture(FromDataset(Roomy().shorten, "t", "", 0, d), OneRecord());
    assert [OneRecord()][0] == OneRecord();
  }

  ghost function Saved(): Tables {
    AfterPrepare(EMPTY_LEDGER, "a", [OneRecord()])
  }

  lemma SavedFacts()
    ensures Next(Roomy(), EMPTY_LEDGER, Prepare("a", [OneRecord()], 0, [OneRecord()]), Saved())
    ensures Saved().sessions == map["t" := Session("a", OneRecord())]
  {
    hide Next, Valid, ReceiptsReadable, PublishAll, ByteLength;
    var r := OneRecord();
    OneRecordIsValid();
    OneByteId('a');
    OneThread(r);
    EmptyIsReadable();
    assert UnresolvedThreads(EMPTY_LEDGER) + Threads([r]) == {"t"};
    FreshPrepareCommits(EMPTY_LEDGER, "a", [r]);
    PublishedSessions(Started(EMPTY_LEDGER, "a"), "a", [r]);
    assert [r][0] == r && Saved().sessions["t"] == Session("a", r);
  }

  ghost function Confirmed(): Tables
    requires "t" in Saved().sessions
  {
    WithOutcome(Saved(), "a", "t", Deleted, 0)
  }

  /**
   One session with one call: captured, prepared, reported as deleted, its log gone.
   All that the deletion theorem asks for happens, and the call is still there.
   */
  lemma CompleteDeletion()
    ensures "t" in Saved().sessions
    ensures Consistent(Roomy(), EMPTY_LEDGER) && ListsSessions(Roomy(), EMPTY_LEDGER, [])
    ensures Captured(Roomy().shorten, OneSession(), [OneRecord()])
    ensures PrepareStep(Roomy(), LEDGER_READ_BUDGET, EMPTY_LEDGER, "a", [OneRecord()], 0, [OneRecord()], Saved())
    ensures Outcomes(Roomy(), [Saved(), Confirmed()], [SetOutcome("a", "t", Deleted, 0)])
    ensures ListsSessions(Roomy(), Confirmed(), [Resolved(OneRecord(), Deleted, 0)])
    ensures Drop(OneSession(), {"t"}).calls == []
    ensures multiset(Overlaid(Drop(OneSession(), {"t"}), [Resolved(OneRecord(), Deleted, 0)], 0).calls)
              == multiset{OneCall()}
  {
    hide Valid, PrepareStep, OutcomeStep, OneRecord, Saved, Consistent, Overlaid, Captured, FromDataset, ByteLength,
         StringLe, AddCalls, WithinBudget;
    var d, r, gone := OneSession(), OneRecord(), Resolved(OneRecord(), Deleted, 0);
    OneRecordIsValid();
    SavedFacts();
    RecordThread();
    EmptyIsConsistent(Roomy());
    OneSessionIsCaptured();
    OutcomeCommits(Saved(), "a", "t", Deleted);
    assert Confirmed().sessions == map["t" := Session("a", gone)];
    assert Outcomes(Roomy(), [Saved(), Confirmed()], [SetOutcome("a", "t", Deleted, 0)]);
    assert ListsSessions(Roomy(), Confirmed(), [gone]) by { assert [gone][0] == gone; }
    assert d.calls[..0] == [] && DropCalls([], {"t"}) == [];
    OneThread(r);
    DeletionKeepsCalls(Roomy(), d, EMPTY_LEDGER, "a", [r], 0, [r], [Saved(), Confirmed()],
                       [SetOutcome("a", "t", Deleted, 0)], [], [gone], 0);
    OverlaySort(d, [], 0);
    assert AddRecords(d.calls, [], 0) == d.calls;
  }

  lemma RecordThread()
    ensures OneRecord().thread == "t" && OneRecord().capturedAt == 0
  {
  }
}
