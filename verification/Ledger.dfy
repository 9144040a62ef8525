/**
 The durable deletion ledger (src/deleted_sessions.rs): three tables, the two
 writing transactions and the two bounded readers.  A write either commits all of
 its rows or none, so each transaction is one step here.
 */
module Ledger {
  import opened Time
  import opened Options
  import opened Folding
  import opened Ordering
  import opened Text
  import opened Dataset
  import opened Records

  const MAX_RECORD_BYTES: nat := 64 * 1024 * 1024
  const MAX_READ_BYTES: nat := 256 * 1024 * 1024
  const MAX_RECORDS: nat := 100_000
  const MAX_PENDING_RECEIPTS: nat := 512

  datatype ReadBudget = ReadBudget(records: nat, recordBytes: nat, totalBytes: nat)

  const LEDGER_READ_BUDGET := ReadBudget(MAX_RECORDS, MAX_RECORD_BYTES, MAX_READ_BYTES)

  datatype Session = Session(operation: string, record: Record)
  datatype MemberOutcome = MemberOutcome(status: DeletionStatus, at: Instant)

  /** The contents of the `operations`, `outcomes` and `sessions` tables. */
  datatype Tables = Tables(
    operations: map<string, Instant>,
    outcomes: map<(string, string), MemberOutcome>,
    sessions: map<string, Session>)

  const EMPTY_LEDGER := Tables(map[], map[], map[])

  // ----- Sizes

  function Plus(a: nat, b: nat): nat {
    a + b
  }

  function Sizes(env: Environment, sessions: map<string, Session>): map<string, nat> {
    map t | t in sessions :: env.size(sessions[t].record)
  }

  ghost function TotalBytes(env: Environment, sessions: map<string, Session>): nat {
    MapSum(Plus, 0, Sizes(env, sessions))
  }

  ghost predicate WithinBudget(env: Environment, l: Tables, budget: ReadBudget) {
    && |l.sessions| <= budget.records
    && (forall t :: t in l.sessions ==> env.size(l.sessions[t].record) <= budget.recordBytes)
    && TotalBytes(env, l.sessions) <= budget.totalBytes
  }

  lemma TotalBytesPullsOut(env: Environment, sessions: map<string, Session>, t: string)
    requires t in sessions
    ensures TotalBytes(env, sessions) == TotalBytes(env, sessions - {t}) + env.size(sessions[t].record)
  {
    assert Sizes(env, sessions) - {t} == Sizes(env, sessions - {t});
    MapSumPullsOut(Plus, 0, Sizes(env, sessions), t);
  }

  /** The aggregate query over all payloads. */
  method CheckReadBudget(env: Environment, l: Tables, budget: ReadBudget) returns (ok: bool)
    ensures ok <==> WithinBudget(env, l, budget)
  {
    var rest, total, largest := l.sessions, 0, 0;
    while rest != map[]
      invariant rest.Keys <= l.sessions.Keys
      invariant forall t :: t in rest ==> rest[t] == l.sessions[t]
      invariant total + TotalBytes(env, rest) == TotalBytes(env, l.sessions)
      invariant forall t :: t in l.sessions && t !in rest ==> env.size(l.sessions[t].record) <= largest
      invariant largest == 0 || exists t :: t in l.sessions && env.size(l.sessions[t].record) == largest
      decreases |rest|
    {
      var t :| t in rest;
      TotalBytesPullsOut(env, rest, t);
      assert (rest - {t}).Keys == rest.Keys - {t} && |rest.Keys - {t}| < |rest.Keys|;
      var size := env.size(rest[t].record);
      total := total + size;
      if size > largest {
        largest := size;
        assert t in l.sessions && env.size(l.sessions[t].record) == largest;
      }
      rest := rest - {t};
    }
    assert TotalBytes(env, rest) == 0 by { assert Sizes(env, rest) == map[]; }
    ok := |l.sessions| <= budget.records && largest <= budget.recordBytes && total <= budget.totalBytes;
  }

  // ----- Readers

  predicate Unresolved(status: DeletionStatus) {
    status == Pending || status == UnknownOutcome || status == Partial
  }

  function UnresolvedThreads(l: Tables): set<string> {
    set t | t in l.sessions && Unresolved(l.sessions[t].record.status)
  }

  /** The row of thread `t` passes every check of `load_deleted_sessions`. */
  ghost predicate RowLoads(l: Tables, t: string) {
    t in l.sessions && l.sessions[t].record.thread == t && Valid(l.sessions[t].record)
  }

  ghost predicate Loadable(env: Environment, l: Tables) {
    && WithinBudget(env, l, LEDGER_READ_BUDGET)
    && (forall t :: t in l.sessions ==> RowLoads(l, t))
  }

  predicate ReadableId(operation: string) {
    operation != "" && ByteLength(operation) <= 256 && !HasControl(operation)
  }

  /** The row of thread `t` passes every check of `pending_deletion_receipts`. */
  ghost predicate RowReconciles(l: Tables, t: string) {
    && RowLoads(l, t)
    && var s := l.sessions[t];
    && ReadableId(s.operation)
    && s.operation in l.operations
    && (s.operation, t) in l.outcomes
    && l.outcomes[(s.operation, t)].status == s.record.status
  }

  ghost predicate ReceiptsReadable(env: Environment, l: Tables) {
    && WithinBudget(env, l, LEDGER_READ_BUDGET)
    && (forall t :: t in l.sessions ==> RowReconciles(l, t))
    && |UnresolvedThreads(l)| <= MAX_PENDING_RECEIPTS
  }

  /** A record as it is handed to callers. */
  function Shown(env: Environment, r: Record): Record {
    if env.redact then r.(title := "[redacted]") else r
  }

  /** `records` lists every session of the ledger once, ordered by thread. */
  ghost predicate ListsSessions(env: Environment, l: Tables, records: seq<Record>) {
    && |records| == |l.sessions|
    && (forall i :: 0 <= i < |records| ==>
                      && records[i].thread in l.sessions
                      && records[i] == Shown(env, l.sessions[records[i].thread].record))
    && (forall i, j :: 0 <= i < j < |records| ==>
                         records[i].thread != records[j].thread && StringLe(records[i].thread, records[j].thread))
    && (forall t :: t in l.sessions ==> exists i :: 0 <= i < |records| && records[i].thread == t)
  }

  /** What is listed is the saved record; its title is hidden exactly where content is redacted. */
  lemma ListedRecord(env: Environment, l: Tables, records: seq<Record>, i: nat)
    requires ListsSessions(env, l, records) && i < |records|
    ensures
      && records[i].thread in l.sessions
      && var saved := l.sessions[records[i].thread].record;
      && records[i].(title := saved.title) == saved
      && records[i].title == if env.redact then "[redacted]" else saved.title
  {
  }

  /** The bytes of the payloads in the given rows. */
  function RowBytes(env: Environment, l: Tables, rows: seq<string>): nat {
    if rows == [] then 0 else RowBytes(env, l, rows[..|rows| - 1]) + PayloadBytes(env, l, rows[|rows| - 1])
  }

  function PayloadBytes(env: Environment, l: Tables, t: string): nat {
    if t in l.sessions then env.size(l.sessions[t].record) else 0
  }

  /** `rows` lists the sessions table in key order. */
  ghost predicate Rows(l: Tables, rows: seq<string>) {
    && Distinct(rows) && Sorted(StringLe, rows)
    && (forall t :: t in rows <==> t in l.sessions)
    && |rows| == |l.sessions|
  }

  lemma {:induction false} RowBytesAreTotal(env: Environment, l: Tables, rows: seq<string>)
    requires Distinct(rows)
    requires forall t :: t in rows <==> t in l.sessions
    ensures RowBytes(env, l, rows) == TotalBytes(env, l.sessions)
    decreases |rows|
  {
    hide TotalBytes;
    if rows == [] {
      EmptyTotal(env, l.sessions);
    } else {
      var init, t := rows[..|rows| - 1], rows[|rows| - 1];
      assert rows == init + [t];
      var smaller := l.(sessions := l.sessions - {t});
      RowBytesAreTotal(env, smaller, init);
      RowBytesLocal(env, l, smaller, init);
      TotalBytesPullsOut(env, l.sessions, t);
    }
  }

  lemma EmptyTotal(env: Environment, sessions: map<string, Session>)
    requires forall t :: t !in sessions
    ensures TotalBytes(env, sessions) == 0
  {
    assert Sizes(env, sessions) == map[];
  }

  lemma {:induction false} RowBytesLocal(env: Environment, l: Tables, l': Tables, rows: seq<string>)
    requires forall i :: 0 <= i < |rows| ==>
                           && rows[i] in l.sessions && rows[i] in l'.sessions
                           && l.sessions[rows[i]] == l'.sessions[rows[i]]
    ensures RowBytes(env, l, rows) == RowBytes(env, l', rows)
  {
    if rows != [] {
      RowBytesLocal(env, l, l', rows[..|rows| - 1]);
    }
  }

  lemma {:induction false} RowBytesMonotone(env: Environment, l: Tables, rows: seq<string>, i: nat)
    requires i <= |rows|
    ensures RowBytes(env, l, rows[..i]) <= RowBytes(env, l, rows)
  {
    if i == |rows| {
      assert rows[..i] == rows;
    } else {
      RowBytesMonotone(env, l, rows[..|rows| - 1], i);
      assert rows[..|rows| - 1][..i] == rows[..i];
    }
  }

  ghost predicate RowsFit(env: Environment, l: Tables, rows: seq<string>) {
    && |rows| <= MAX_RECORDS
    && RowBytes(env, l, rows) <= MAX_READ_BYTES
    && forall j :: 0 <= j < |rows| ==> PayloadBytes(env, l, rows[j]) <= MAX_RECORD_BYTES
  }

  lemma RowsFitMeansBudget(env: Environment, l: Tables, rows: seq<string>)
    requires Rows(l, rows)
    ensures RowsFit(env, l, rows) <==> WithinBudget(env, l, LEDGER_READ_BUDGET)
  {
    RowBytesAreTotal(env, l, rows);
    assert forall j :: 0 <= j < |rows| ==> rows[j] in l.sessions;
    forall t | t in l.sessions ensures exists j :: 0 <= j < |rows| && rows[j] == t {
      assert t in rows;
    }
  }

  /** The size checks shared by both readers, row by row with a running total. */
  method CheckRowSizes(env: Environment, l: Tables, rows: seq<string>) returns (ok: bool)
    ensures ok <==> RowsFit(env, l, rows)
  {
    var bytes := 0;
    for i := 0 to |rows|
      invariant bytes == RowBytes(env, l, rows[..i]) <= MAX_READ_BYTES && i <= MAX_RECORDS
      invariant forall j :: 0 <= j < i ==> PayloadBytes(env, l, rows[j]) <= MAX_RECORD_BYTES
    {
      var size := PayloadBytes(env, l, rows[i]);
      assert rows[..i + 1][..i] == rows[..i];
      bytes := bytes + size;
      if size > MAX_RECORD_BYTES || bytes > MAX_READ_BYTES || i >= MAX_RECORDS {
        RowBytesMonotone(env, l, rows, i + 1);
        return false;
      }
    }
    assert rows[..|rows|] == rows;
    return true;
  }

  /** The bounded read: all sessions, or an error, never a truncated list. */
  method LoadDeletedSessions(env: Environment, l: Tables) returns (r: Option<seq<Record>>)
    ensures r.Some? <==> Loadable(env, l)
    ensures r.Some? ==> ListsSessions(env, l, r.value)
  {
    hide Valid, WithinBudget, Shown, StringLe, RowLoads, RowsLoaded, ListsSessions, RowsFit;
    var rows := SortedKeys(l.sessions.Keys);
    RowsFitMeansBudget(env, l, rows);
    var sizesOk := CheckRowSizes(env, l, rows);
    if !sizesOk {
      return None;
    }
    var records: seq<Record> := [];
    NoRowsLoaded(env, l);
    for i := 0 to |rows|
      invariant RowsLoaded(env, l, rows[..i], records)
    {
      var record := l.sessions[rows[i]].record;
      var valid := Validate(record);
      BadRow(l, rows[i]);
      if record.thread != rows[i] || !valid {
        return None;
      }
      OneMoreRowLoaded(env, l, rows[..i], records, rows[i]);
      assert rows[..i + 1] == rows[..i] + [rows[i]];
      records := records + [Shown(env, record)];
    }
    assert rows[..|rows|] == rows;
    AllRowsLoaded(env, l, rows, records);
    r := Some(records);
  }

  /** The given rows pass every check, and `records` shows them in order. */
  ghost predicate RowsLoaded(env: Environment, l: Tables, rows: seq<string>, records: seq<Record>) {
    && |records| == |rows|
    && (forall j :: 0 <= j < |rows| ==> RowLoads(l, rows[j]) && records[j] == Shown(env, l.sessions[rows[j]].record))
  }

  lemma NoRowsLoaded(env: Environment, l: Tables)
    ensures RowsLoaded(env, l, [], [])
  {
  }

  lemma BadRow(l: Tables, t: string)
    requires t in l.sessions
    ensures RowLoads(l, t) <==> l.sessions[t].record.thread == t && Valid(l.sessions[t].record)
  {
    hide Valid;
  }

  lemma OneMoreRowLoaded(env: Environment, l: Tables, rows: seq<string>, records: seq<Record>, t: string)
    requires RowsLoaded(env, l, rows, records) && RowLoads(l, t)
    ensures RowsLoaded(env, l, rows + [t], records + [Shown(env, l.sessions[t].record)])
  {
    hide Valid, Shown;
  }

  lemma AllRowsLoaded(env: Environment, l: Tables, rows: seq<string>, records: seq<Record>)
    requires Rows(l, rows) && RowsLoaded(env, l, rows, records)
    ensures ListsSessions(env, l, records) && forall t :: t in l.sessions ==> RowLoads(l, t)
  {
    hide Valid, Shown, StringLe, ListsSessions;
    forall t | t in l.sessions ensures RowLoads(l, t) {
      var j :| 0 <= j < |rows| && rows[j] == t;
      assert RowLoads(l, rows[j]);
    }
    ListedRows(env, l, rows, records);
  }

  lemma ListedRows(env: Environment, l: Tables, rows: seq<string>, records: seq<Record>)
    requires Rows(l, rows) && |records| == |rows|
    requires forall j :: 0 <= j < |rows| ==> l.sessions[rows[j]].record.thread == rows[j]
    requires forall j :: 0 <= j < |rows| ==> records[j] == Shown(env, l.sessions[rows[j]].record)
    ensures ListsSessions(env, l, records)
  {
    assert forall j :: 0 <= j < |rows| ==> records[j].thread == rows[j];
    forall t | t in l.sessions ensures exists i :: 0 <= i < |records| && records[i].thread == t {
      var i :| 0 <= i < |rows| && rows[i] == t;
      assert records[i].thread == t;
    }
  }

  datatype Receipt = Receipt(operation: string, thread: string)

  /** The receipts of the unresolved sessions among the given rows. */
  function ReceiptsIn(l: Tables, rows: seq<string>): seq<Receipt> {
    if rows == [] then
      []
    else
      var init, t := ReceiptsIn(l, rows[..|rows| - 1]), rows[|rows| - 1];
      if RowUnresolved(l, t) then init + [Receipt(l.sessions[t].operation, t)] else init
  }

  predicate RowUnresolved(l: Tables, t: string) {
    t in l.sessions && Unresolved(l.sessions[t].record.status)
  }

  /** `receipts` lists the current operation of every unresolved session once, ordered by thread. */
  ghost predicate ListsUnresolved(l: Tables, receipts: seq<Receipt>) {
    && (forall r :: r in receipts <==>
                      && r.thread in UnresolvedThreads(l)
                      && r.operation == l.sessions[r.thread].operation)
    && OrderedReceipts(receipts)
    && |receipts| == |UnresolvedThreads(l)|
  }

  ghost predicate OrderedReceipts(receipts: seq<Receipt>) {
    forall i, j :: 0 <= i < j < |receipts| ==>
                     receipts[i].thread != receipts[j].thread && StringLe(receipts[i].thread, receipts[j].thread)
  }

  lemma {:induction false} ReceiptsInMembers(l: Tables, rows: seq<string>)
    ensures forall r :: r in ReceiptsIn(l, rows) <==>
                          && r.thread in rows && RowUnresolved(l, r.thread)
                          && r.operation == l.sessions[r.thread].operation
  {
    if rows != [] {
      ReceiptsInMembers(l, rows[..|rows| - 1]);
      assert rows == rows[..|rows| - 1] + [rows[|rows| - 1]];
    }
  }

  lemma {:induction false} ReceiptsInOrder(l: Tables, rows: seq<string>)
    requires Distinct(rows) && Sorted(StringLe, rows)
    ensures OrderedReceipts(ReceiptsIn(l, rows))
  {
    if rows != [] {
      var init, t := rows[..|rows| - 1], rows[|rows| - 1];
      ReceiptsInOrder(l, init);
      ReceiptsInMembers(l, init);
      assert forall i :: 0 <= i < |init| ==> init[i] != t && StringLe(init[i], t);
      assert forall r :: r in ReceiptsIn(l, init) ==> r.thread in init;
    }
  }

  lemma {:induction false} ReceiptsInCount(l: Tables, rows: seq<string>)
    requires Distinct(rows)
    ensures |ReceiptsIn(l, rows)| == |set t | t in rows && RowUnresolved(l, t)|
  {
    if rows == [] {
      assert (set t | t in rows && RowUnresolved(l, t)) == {};
    } else {
      var init, t := rows[..|rows| - 1], rows[|rows| - 1];
      assert rows == init + [t];
      ReceiptsInCount(l, init);
      var before := set t | t in init && RowUnresolved(l, t);
      assert (set t | t in rows && RowUnresolved(l, t)) == if RowUnresolved(l, t) then before + {t} else before;
    }
  }

  lemma {:induction false} ReceiptsInMonotone(l: Tables, rows: seq<string>, i: nat)
    requires i <= |rows|
    ensures |ReceiptsIn(l, rows[..i])| <= |ReceiptsIn(l, rows)|
  {
    if i == |rows| {
      assert rows[..i] == rows;
    } else {
      ReceiptsInMonotone(l, rows[..|rows| - 1], i);
      assert rows[..|rows| - 1][..i] == rows[..i];
    }
  }

  lemma AllReceipts(l: Tables, rows: seq<string>)
    requires Rows(l, rows)
    ensures ListsUnresolved(l, ReceiptsIn(l, rows))
  {
    ReceiptsInMembers(l, rows);
    ReceiptsInOrder(l, rows);
    ReceiptsInCount(l, rows);
    assert UnresolvedThreads(l) == set t | t in rows && RowUnresolved(l, t);
  }

  ghost predicate RowsReconcile(l: Tables, rows: seq<string>) {
    forall j :: 0 <= j < |rows| ==> RowReconciles(l, rows[j])
  }

  lemma ReceiptThreads(l: Tables, receipts: seq<Receipt>)
    requires ListsUnresolved(l, receipts)
    ensures (set r | r in receipts :: r.thread) == UnresolvedThreads(l)
  {
    forall t | t in UnresolvedThreads(l) ensures t in set r | r in receipts :: r.thread {
      assert Receipt(l.sessions[t].operation, t) in receipts;
    }
  }

  /** The reconciliation query: all unresolved members, or an error, never a truncated list. */
  method PendingDeletionReceipts(env: Environment, l: Tables) returns (r: Option<seq<Receipt>>)
    ensures r.Some? <==> ReceiptsReadable(env, l)
    ensures r.Some? ==> ListsUnresolved(l, r.value)
  {
    var rows := SortedKeys(l.sessions.Keys);
    assert Rows(l, rows);
    RowsFitMeansBudget(env, l, rows);
    AllReceipts(l, rows);
    var sizesOk := CheckRowSizes(env, l, rows);
    if !sizesOk {
      return None;
    }
    r := ReadReceipts(l, rows);
    RowsReconcileMeansAll(l, rows);
  }

  lemma RowsReconcileMeansAll(l: Tables, rows: seq<string>)
    requires Rows(l, rows)
    ensures RowsReconcile(l, rows) <==> forall t :: t in l.sessions ==> RowReconciles(l, t)
  {
    hide RowReconciles;
    if RowsReconcile(l, rows) {
      forall t | t in l.sessions ensures RowReconciles(l, t) {
        assert t in rows;
      }
    }
    if forall t :: t in l.sessions ==> RowReconciles(l, t) {
      forall j | 0 <= j < |rows| ensures RowReconciles(l, rows[j]) {
        assert rows[j] in l.sessions;
      }
    }
  }

  method ReadReceipts(l: Tables, rows: seq<string>) returns (r: Option<seq<Receipt>>)
    ensures r.Some? <==> RowsReconcile(l, rows) && |ReceiptsIn(l, rows)| <= MAX_PENDING_RECEIPTS
    ensures r.Some? ==> r.value == ReceiptsIn(l, rows)
  {
    hide RowReconciles;
    var receipts: seq<Receipt> := [];
    for i := 0 to |rows|
      invariant forall j :: 0 <= j < i ==> RowReconciles(l, rows[j])
      invariant receipts == ReceiptsIn(l, rows[..i])
      invariant |receipts| <= MAX_PENDING_RECEIPTS
    {
      assert rows[..i + 1][..i] == rows[..i];
      var reconciles := CheckRow(l, rows[i]);
      if !reconciles {
        return None;
      }
      if RowUnresolved(l, rows[i]) {
        if |receipts| >= MAX_PENDING_RECEIPTS {
          ReceiptsInMonotone(l, rows, i + 1);
          return None;
        }
        receipts := receipts + [Receipt(l.sessions[rows[i]].operation, rows[i])];
      }
    }
    assert rows[..|rows|] == rows;
    r := Some(receipts);
  }

  method CheckRow(l: Tables, t: string) returns (ok: bool)
    ensures ok <==> RowReconciles(l, t)
  {
    if t !in l.sessions {
      return false;
    }
    var session := l.sessions[t];
    if !ReadableId(session.operation) || session.operation !in l.operations {
      return false;
    }
    var valid := Validate(session.record);
    if !valid || session.record.thread != t || (session.operation, t) !in l.outcomes {
      return false;
    }
    return l.outcomes[(session.operation, t)].status == session.record.status;
  }

  // ----- The prepare transaction

  function Normal(env: Environment, r: Record): Record {
    r.(status := Pending, deletedAt := None, title := if env.redact then "[redacted]" else env.shorten(r.title))
  }

  function Normals(env: Environment, records: seq<Record>): seq<Record> {
    seq(|records|, i requires 0 <= i < |records| => Normal(env, records[i]))
  }

  ghost predicate DistinctThreads(records: seq<Record>) {
    forall i, j :: 0 <= i < j < |records| ==> records[i].thread != records[j].thread
  }

  function Threads(records: seq<Record>): set<string> {
    set i | 0 <= i < |records| :: records[i].thread
  }

  function CaptureBytes(env: Environment, records: seq<Record>): nat {
    if records == [] then 0 else CaptureBytes(env, records[..|records| - 1]) + env.size(records[|records| - 1])
  }

  /** The checks made on the batch itself, before the ledger is opened. */
  ghost predicate BatchOk(env: Environment, operation: string, records: seq<Record>) {
    && operation != "" && ByteLength(operation) <= 256 && records != []
    && DistinctThreads(records)
    && CapturesFit(env, Normals(env, records))
  }

  ghost predicate CapturesFit(env: Environment, incoming: seq<Record>) {
    && (forall i :: 0 <= i < |incoming| ==> Valid(incoming[i]) && env.size(incoming[i]) <= MAX_RECORD_BYTES)
    && CaptureBytes(env, incoming) <= MAX_READ_BYTES
  }

  /** The checks made against the ledger before anything is inserted. */
  ghost predicate LedgerAdmits(env: Environment, l: Tables, operation: string, records: seq<Record>) {
    && ReceiptsReadable(env, l)
    && |UnresolvedThreads(l) + Threads(records)| <= MAX_PENDING_RECEIPTS
    && operation !in l.operations
  }

  /** `merged` is `incoming` with the evidence the ledger already has for its thread. */
  ghost predicate MergesWith(env: Environment, sessions: map<string, Session>, incoming: Record, merged: Record) {
    if incoming.thread in sessions then
      && env.size(sessions[incoming.thread].record) <= MAX_RECORD_BYTES
      && Merges(sessions[incoming.thread].record, incoming, merged)
    else
      merged == incoming
  }

  /** The saved row of a member, or what the member becomes when merged with it, is too large. */
  ghost predicate MemberOversized(env: Environment, sessions: map<string, Session>, incoming: Record, r: Record) {
    && env.size(r) > MAX_RECORD_BYTES
    && (|| (incoming.thread in sessions && r == sessions[incoming.thread].record)
        || MergesWith(env, sessions, incoming, r))
  }

  ghost predicate IsOversized(env: Environment, sessions: map<string, Session>, records: seq<Record>, r: Record) {
    exists i :: 0 <= i < |records| && MemberOversized(env, sessions, Normal(env, records[i]), r)
  }

  ghost predicate AllMerge(env: Environment, sessions: map<string, Session>, incoming: seq<Record>,
                           merged: seq<Record>) {
    && |merged| == |incoming|
    && (forall i :: 0 <= i < |merged| ==> MergesWith(env, sessions, incoming[i], merged[i]))
  }

  /** Inserts or replaces one session row and adds its pending outcome row. */
  function Publish(l: Tables, operation: string, r: Record): Tables {
    l.(sessions := l.sessions[r.thread := Session(operation, r)],
       outcomes := l.outcomes[(operation, r.thread) := MemberOutcome(Pending, r.capturedAt)])
  }

  function PublishAll(l: Tables, operation: string, merged: seq<Record>): Tables {
    if merged == [] then
      l
    else
      Publish(PublishAll(l, operation, merged[..|merged| - 1]), operation, merged[|merged| - 1])
  }

  /** A committed prepare transaction from `l` to `after`. */
  ghost predicate PrepareStep(env: Environment, budget: ReadBudget, l: Tables, operation: string, records: seq<Record>,
                              now: Instant, merged: seq<Record>, after: Tables)
  {
    && BatchOk(env, operation, records)
    && LedgerAdmits(env, l, operation, records)
    && AllMerge(env, l.sessions, Normals(env, records), merged)
    && (forall i :: 0 <= i < |merged| ==> env.size(merged[i]) <= MAX_RECORD_BYTES)
    && after == PublishAll(l.(operations := l.operations[operation := now]), operation, merged)
    && WithinBudget(env, after, budget)
  }

  datatype PrepareResult =
    | Prepared(merged: seq<Record>)
    | InvalidBatch
    | LedgerUnreadable
    | PendingBudgetExceeded
    | OperationReused
    | MergeRefused(member: nat, reason: MergeResult)
    | RecordTooLarge(oversized: Record)
    | LedgerBudgetExceeded(rejected: seq<Record>)

  // ----- The outcome transaction

  function Resolved(r: Record, status: DeletionStatus, at: Instant): Record {
    r.(status := status, deletedAt := if status == Deleted then Some(at) else None)
  }

  function WithOutcome(l: Tables, operation: string, t: string, status: DeletionStatus, at: Instant): Tables
    requires t in l.sessions
  {
    var record := Resolved(l.sessions[t].record, status, at);
    l.(sessions := l.sessions[t := Session(operation, record)],
       outcomes := if (operation, t) in l.outcomes
       then l.outcomes[(operation, t) := MemberOutcome(status, at)] else l.outcomes)
  }

  /** A committed outcome transaction from `l` to `after`. */
  ghost predicate OutcomeStep(env: Environment, budget: ReadBudget, l: Tables, operation: string, t: string,
                              status: DeletionStatus, at: Instant, after: Tables)
  {
    && t in l.sessions && l.sessions[t].operation == operation
    && env.size(l.sessions[t].record) <= MAX_RECORD_BYTES
    && Valid(Resolved(l.sessions[t].record, status, at))
    && after == WithOutcome(l, operation, t, status, at)
    && WithinBudget(env, after, budget)
  }

  lemma PublishedSessions(l: Tables, operation: string, merged: seq<Record>)
    requires DistinctThreads(merged)
    ensures
      var after := PublishAll(l, operation, merged);
      && after.operations == l.operations
      && after.sessions.Keys == l.sessions.Keys + Threads(merged)
      && (forall i :: 0 <= i < |merged| ==> after.sessions[merged[i].thread] == Session(operation, merged[i]))
      && (forall t :: t in l.sessions && t !in Threads(merged) ==> after.sessions[t] == l.sessions[t])
  {
    hide PublishAll, Threads, DistinctThreads;
    AllPublished(l, operation, merged);
  }

  /** `after` holds the rows of `merged` under the operation, and all other rows as before. */
  ghost predicate Published(l: Tables, operation: string, merged: seq<Record>, after: Tables) {
    && after.operations == l.operations
    && after.sessions.Keys == l.sessions.Keys + Threads(merged)
    && (forall i :: 0 <= i < |merged| ==>
                      && merged[i].thread in after.sessions
                      && after.sessions[merged[i].thread] == Session(operation, merged[i]))
    && (forall t :: t in l.sessions && t !in Threads(merged) ==>
                      t in after.sessions && after.sessions[t] == l.sessions[t])
  }

  lemma {:induction false} AllPublished(l: Tables, operation: string, merged: seq<Record>)
    requires DistinctThreads(merged)
    ensures Published(l, operation, merged, PublishAll(l, operation, merged))
  {
    hide Published, Publish;
    if merged == [] {
      NonePublished(l, operation);
    } else {
      var init, last := merged[..|merged| - 1], merged[|merged| - 1];
      AllPublished(l, operation, init);
      OneMorePublished(l, operation, init, PublishAll(l, operation, init), last);
      assert merged == init + [last];
    }
  }

  lemma NonePublished(l: Tables, operation: string)
    ensures Published(l, operation, [], l)
  {
    assert Threads([]) == {};
  }

  lemma OneMorePublished(l: Tables, operation: string, merged: seq<Record>, before: Tables, last: Record)
    requires Published(l, operation, merged, before)
    requires forall i :: 0 <= i < |merged| ==> merged[i].thread != last.thread
    ensures Published(l, operation, merged + [last], Publish(before, operation, last))
  {
    ThreadsExtend(merged, last);
    hide Threads;
  }

  lemma ThreadsExtend(records: seq<Record>, r: Record)
    ensures Threads(records + [r]) == Threads(records) + {r.thread}
  {
    var more := records + [r];
    assert more[|records|] == r;
    assert forall i :: 0 <= i < |records| ==> more[i] == records[i];
  }

  lemma {:induction false} PublishedOutcomes(l: Tables, operation: string, merged: seq<Record>)
    ensures
      var after := PublishAll(l, operation, merged);
      && after.outcomes.Keys == l.outcomes.Keys + (set t | t in Threads(merged) :: (operation, t))
      && (forall t :: t in Threads(merged) ==> after.outcomes[(operation, t)].status == Pending)
      && (forall k :: k in l.outcomes && !(k.0 == operation && k.1 in Threads(merged)) ==>
                        after.outcomes[k] == l.outcomes[k])
  {
    if merged != [] {
      var init, last := merged[..|merged| - 1], merged[|merged| - 1];
      PublishedOutcomes(l, operation, init);
      assert Threads(merged) == Threads(init) + {last.thread};
    }
  }

  /** Each member starts with a pending outcome of the moment of its capture. */
  lemma {:induction false} PublishedOutcomeAt(l: Tables, operation: string, merged: seq<Record>, i: nat)
    requires DistinctThreads(merged) && i < |merged|
    ensures
      var outcomes := PublishAll(l, operation, merged).outcomes;
      && (operation, merged[i].thread) in outcomes
      && outcomes[(operation, merged[i].thread)] == MemberOutcome(Pending, merged[i].capturedAt)
  {
    if i < |merged| - 1 {
      PublishedOutcomeAt(l, operation, merged[..|merged| - 1], i);
    }
  }

  datatype Publication = Done(after: Tables, merged: seq<Record>) | Stopped(reason: PrepareResult)

  /** The loop of the prepare transaction: merge each member with its row and write it back. */
  method MergeAndPublish(env: Environment, l: Tables, operation: string, records: seq<Record>)
    returns (p: Publication)
    requires BatchOk(env, operation, records)
    ensures p.Done? ==> p.after == PublishAll(l, operation, p.merged)
    ensures p.Done? ==> AllMerge(env, l.sessions, Normals(env, records), p.merged)
    ensures p.Done? ==> forall i :: 0 <= i < |p.merged| ==> env.size(p.merged[i]) <= MAX_RECORD_BYTES
    ensures p.Stopped? ==> p.reason.MergeRefused? || p.reason.RecordTooLarge?
    ensures p.Stopped? && p.reason.RecordTooLarge? ==> IsOversized(env, l.sessions, records, p.reason.oversized)
    ensures p.Stopped? && p.reason.MergeRefused? ==>
              && p.reason.member < |records|
              && forall merged :: !MergesWith(env, l.sessions, Normal(env, records[p.reason.member]), merged)
  {
    hide MergesWith, MemberOversized, Valid, Publish, PublishAll, ByteLength, CaptureBytes;
    var incoming := Normals(env, records);
    var after, merged: seq<Record> := l, [];
    PublishNothing(l, operation);
    for i := 0 to |records|
      invariant |merged| == i
      invariant forall j :: 0 <= j < i ==> MergesWith(env, l.sessions, Normal(env, records[j]), merged[j])
      invariant forall j :: 0 <= j < i ==> merged[j].thread == records[j].thread
      invariant forall j :: 0 <= j < i ==> env.size(merged[j]) <= MAX_RECORD_BYTES
      invariant after == PublishAll(l, operation, merged)
    {
      MemberUntouched(l, operation, merged, records[i].thread);
      var m := MergeMember(env, l, after, i, incoming[i]);
      if m.Refused? {
        assert incoming[i] == Normal(env, records[i]);
        return Stopped(m.why);
      }
      after := Publish(after, operation, m.record);
      PublishOneMore(l, operation, merged, m.record);
      merged := merged + [m.record];
    }
    p := Done(after, merged);
  }

  lemma PublishNothing(l: Tables, operation: string)
    ensures PublishAll(l, operation, []) == l
  {
  }

  lemma PublishOneMore(l: Tables, operation: string, merged: seq<Record>, r: Record)
    ensures PublishAll(l, operation, merged + [r]) == Publish(PublishAll(l, operation, merged), operation, r)
  {
    assert (merged + [r])[..|merged|] == merged;
  }

  datatype Member = Accepted(record: Record) | Refused(why: PrepareResult)

  /** Merges one member with the row the transaction currently sees for its thread. */
  method MergeMember(env: Environment, ghost l: Tables, current: Tables, index: nat, incoming: Record)
    returns (m: Member)
    requires Valid(incoming)
    requires incoming.thread in current.sessions <==> incoming.thread in l.sessions
    requires incoming.thread in l.sessions ==> current.sessions[incoming.thread] == l.sessions[incoming.thread]
    ensures m.Accepted? ==> MergesWith(env, l.sessions, incoming, m.record) && env.size(m.record) <= MAX_RECORD_BYTES
    ensures m.Accepted? ==> m.record.thread == incoming.thread
    ensures m.Refused? ==> m.why.RecordTooLarge? || (m.why.MergeRefused? && m.why.member == index)
    ensures m.Refused? && m.why.RecordTooLarge? ==> MemberOversized(env, l.sessions, incoming, m.why.oversized)
    ensures m.Refused? && m.why.MergeRefused? ==> forall merged :: !MergesWith(env, l.sessions, incoming, merged)
  {
    var record := incoming;
    if incoming.thread in current.sessions {
      var previous := current.sessions[incoming.thread].record;
      if env.size(previous) > MAX_RECORD_BYTES {
        return Refused(RecordTooLarge(previous));
      }
      var merge := MergeSavedRecord(previous, incoming);
      if !merge.Merged? {
        return Refused(MergeRefused(index, merge));
      }
      record := merge.record;
    }
    if env.size(record) > MAX_RECORD_BYTES {
      return Refused(RecordTooLarge(record));
    }
    return Accepted(record);
  }

  lemma {:induction false} MemberUntouched(l: Tables, operation: string, merged: seq<Record>, t: string)
    requires forall j :: 0 <= j < |merged| ==> merged[j].thread != t
    ensures
      var after := PublishAll(l, operation, merged);
      (t in after.sessions <==> t in l.sessions) && (t in l.sessions ==> after.sessions[t] == l.sessions[t])
  {
    if merged != [] {
      MemberUntouched(l, operation, merged[..|merged| - 1], t);
    }
  }

  /**
   The ledger of one Codex home.  A failed transaction returns before the fields
   are assigned, which is what the rollback amounts to.
   */
  class DeletionLedger {
    var operations: map<string, Instant>
    var outcomes: map<(string, string), MemberOutcome>
    var sessions: map<string, Session>

    constructor ()
      ensures View() == EMPTY_LEDGER
    {
      operations, outcomes, sessions := map[], map[], map[];
    }

    ghost function View(): Tables
      reads this
    {
      Tables(operations, outcomes, sessions)
    }

    /** Saves a batch of captures under a new operation, or changes nothing. */
    method PrepareDelete(env: Environment, operation: string, records: seq<Record>, now: Instant, budget: ReadBudget)
      returns (result: PrepareResult)
      modifies this
      ensures result.Prepared? ==> PrepareStep(env, budget, old(View()), operation, records, now, result.merged, View())
      ensures !result.Prepared? ==> View() == old(View())
      ensures result.InvalidBatch? ==> !BatchOk(env, operation, records)
      ensures result.LedgerUnreadable? ==> !ReceiptsReadable(env, old(View()))
      ensures result.PendingBudgetExceeded? ==>
                |UnresolvedThreads(old(View())) + Threads(records)| > MAX_PENDING_RECEIPTS
      ensures result.OperationReused? ==> operation in old(operations)
      ensures result.MergeRefused? ==>
                && result.member < |records|
                && forall merged :: !MergesWith(env, old(sessions), Normal(env, records[result.member]), merged)
      ensures result.RecordTooLarge? ==> IsOversized(env, old(sessions), records, result.oversized)
      ensures result.LedgerBudgetExceeded? ==>
                && AllMerge(env, old(sessions), Normals(env, records), result.rejected)
                && !WithinBudget(env, PublishAll(old(View()).(operations := old(operations)[operation := now]),
                                                 operation, result.rejected), budget)
    {
      hide BatchOk, ReceiptsReadable, WithinBudget, AllMerge, MergesWith, IsOversized, PublishAll, Normal, Normals,
           UnresolvedThreads, Threads, ListsUnresolved;
      var ok := CheckBatch(env, operation, records);
      if !ok {
        return InvalidBatch;
      }
      var before := Tables(operations, outcomes, sessions);
      var receipts := PendingDeletionReceipts(env, before);
      if receipts.None? {
        return LedgerUnreadable;
      }
      var pending := (set r | r in receipts.value :: r.thread) + Threads(records);
      ReceiptThreads(before, receipts.value);
      if |pending| > MAX_PENDING_RECEIPTS {
        return PendingBudgetExceeded;
      }
      if operation in operations {
        return OperationReused;
      }
      var started := before.(operations := operations[operation := now]);
      var published := MergeAndPublish(env, started, operation, records);
      match published
      case Stopped(reason) =>
        return reason;
      case Done(after, merged) =>
        ok := CheckReadBudget(env, after, budget);
        if !ok {
          return LedgerBudgetExceeded(merged);
        }
        operations, outcomes, sessions := after.operations, after.outcomes, after.sessions;
        return Prepared(merged);
    }

    /** Records the result for one member of the thread's current operation, or changes nothing. */
    method SetDeletionOutcome(env: Environment, operation: string, t: string, status: DeletionStatus, at: Instant,
                              budget: ReadBudget)
      returns (ok: bool)
      modifies this
      ensures ok ==> OutcomeStep(env, budget, old(View()), operation, t, status, at, View())
      ensures !ok ==>
                && View() == old(View())
                && forall after :: !OutcomeStep(env, budget, old(View()), operation, t, status, at, after)
    {
      if t !in sessions || sessions[t].operation != operation || env.size(sessions[t].record) > MAX_RECORD_BYTES {
        return false;
      }
      var record := Resolved(sessions[t].record, status, at);
      var valid := Validate(record);
      if !valid {
        return false;
      }
      var after := WithOutcome(Tables(operations, outcomes, sessions), operation, t, status, at);
      var within := CheckReadBudget(env, after, budget);
      if !within {
        return false;
      }
      operations, outcomes, sessions := after.operations, after.outcomes, after.sessions;
      return true;
    }
  }

  /** The loop over the batch that runs before the database is opened. */
  method CheckBatch(env: Environment, operation: string, records: seq<Record>) returns (ok: bool)
    ensures ok <==> BatchOk(env, operation, records)
  {
    if operation == "" || ByteLength(operation) > 256 || records == [] {
      return false;
    }
    var incoming := Normals(env, records);
    var distinct := CheckDistinct(records);
    if !distinct {
      return false;
    }
    var fits := CheckCaptures(env, incoming);
    return fits;
  }

  method CheckDistinct(records: seq<Record>) returns (ok: bool)
    ensures ok <==> DistinctThreads(records)
  {
    var ids: set<string> := {};
    for i := 0 to |records|
      invariant forall t :: t in ids <==> exists j :: 0 <= j < i && records[j].thread == t
      invariant forall j, k :: 0 <= j < k < i ==> records[j].thread != records[k].thread
    {
      if records[i].thread in ids {
        return false;
      }
      ids := ids + {records[i].thread};
    }
    return true;
  }

  method CheckCaptures(env: Environment, incoming: seq<Record>) returns (ok: bool)
    ensures ok <==> CapturesFit(env, incoming)
  {
    hide Valid;
    var bytes := 0;
    for i := 0 to |incoming|
      invariant forall j :: 0 <= j < i ==> Valid(incoming[j]) && env.size(incoming[j]) <= MAX_RECORD_BYTES
      invariant bytes == CaptureBytes(env, incoming[..i]) <= MAX_READ_BYTES
    {
      var valid := Validate(incoming[i]);
      assert incoming[..i + 1][..i] == incoming[..i];
      bytes := bytes + env.size(incoming[i]);
      if !valid || env.size(incoming[i]) > MAX_RECORD_BYTES || bytes > MAX_READ_BYTES {
        CaptureBytesMonotone(env, incoming, i + 1);
        return false;
      }
    }
    assert incoming[..|incoming|] == incoming;
    return true;
  }

  lemma {:induction false} CaptureBytesMonotone(env: Environment, records: seq<Record>, i: nat)
    requires i <= |records|
    ensures CaptureBytes(env, records[..i]) <= CaptureBytes(env, records)
  {
    if i == |records| {
      assert records[..i] == records;
    } else {
      CaptureBytesMonotone(env, records[..|records| - 1], i);
      assert records[..|records| - 1][..i] == records[..i];
    }
  }
}
