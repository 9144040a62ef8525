/**
 The evidence saved for one session before its deletion is requested
 (src/deleted_sessions.rs): capture from the dataset, validation, and the merge
 with evidence that an earlier deletion attempt already saved.
 */
module Records {
  import opened Time
  import opened Options
  import opened Saturating
  import opened Ordering
  import opened Text
  import opened Dataset

  const MAX_CALLS: nat := 500_000

  datatype DeletionStatus = Pending | Deleted | UnknownOutcome | Partial | FailedDeletion

  datatype DeletedTurn = DeletedTurn(
    turnId: string,
    model: Option<string>,
    tier: Option<string>,
    startedAt: Option<Instant>,
    completedAt: Option<Instant>,
    durationMs: Option<nat>,
    status: TurnStatus)

  datatype Record = Record(
    thread: string,
    title: string,
    parent: Option<string>,
    cwd: Option<string>,
    source: Option<string>,
    createdAt: Option<Instant>,
    updatedAt: Option<Instant>,
    capturedAt: Instant,
    deletedAt: Option<Instant>,
    status: DeletionStatus,
    calls: seq<UsageCall>,
    turns: seq<DeletedTurn>,
    interactions: seq<AgentInteraction>)

  /**
   What the ledger code relies on but does not define: whether content is
   redacted, how titles are shortened, and the length of the JSON payload.
   */
  datatype Environment = Environment(redact: bool, shorten: string -> string, size: Record -> nat)

  predicate IdentityTextOk(text: Option<string>) {
    text.Some? ==> ByteLength(text.value) <= 4096 && !HasControl(text.value)
  }

  predicate CallOk(r: Record, c: UsageCall) {
    && c.thread == r.thread
    && c.timestamp <= r.capturedAt
    && IdentityTextOk(c.turn)
    && IdentityTextOk(c.model)
    && IdentityTextOk(c.tier)
    && IdentityTextOk(c.eventId)
  }

  /** The texts of a saved call are short and free of control characters, wherever there are any. */
  lemma AcceptedCall(r: Record, c: UsageCall)
    ensures CallOk(r, c)
       <==> && c.thread == r.thread && c.timestamp <= r.capturedAt
            && forall text :: text in [c.turn, c.model, c.tier, c.eventId] && text.Some? ==>
                                ByteLength(text.value) <= 4096 && forall x :: x in text.value ==> !IsControl(x)
  {
    hide ByteLength, IsControl;
    forall text: Option<string> | text.Some?
      ensures HasControl(text.value) <==> exists x :: x in text.value && IsControl(x)
    {
      if x :| x in text.value && IsControl(x) {
        var i :| 0 <= i < |text.value| && text.value[i] == x;
      }
    }
    var texts := [c.turn, c.model, c.tier, c.eventId];
    assert texts[0] in texts && texts[1] in texts && texts[2] in texts && texts[3] in texts;
  }

  /** A record the ledger accepts. */
  ghost predicate Valid(r: Record) {
    && r.thread != "" && ByteLength(r.thread) <= 256
    && |r.calls| <= MAX_CALLS && |r.turns| <= MAX_CALLS
    && !(r.source.Some? && StartsWith(r.source.value, "remote:"))
    && ByteLength(r.title) <= 4096 && !HasControl(r.title)
    && DistinctKeys(r.calls)
    && (forall i :: 0 <= i < |r.calls| ==> CallOk(r, r.calls[i]))
  }

  /** The single-pass check with a set of keys already seen. */
  method Validate(r: Record) returns (ok: bool)
    ensures ok <==> Valid(r)
  {
    if !(&& r.thread != "" && ByteLength(r.thread) <= 256
         && |r.calls| <= MAX_CALLS && |r.turns| <= MAX_CALLS
         && !(r.source.Some? && StartsWith(r.source.value, "remote:"))
         && ByteLength(r.title) <= 4096 && !HasControl(r.title))
    {
      return false;
    }
    var keys: set<CallKey> := {};
    for i := 0 to |r.calls|
      invariant keys == set j | 0 <= j < i :: KeyOf(r.calls[j])
      invariant DistinctKeys(r.calls[..i])
      invariant forall j :: 0 <= j < i ==> CallOk(r, r.calls[j])
    {
      var call := r.calls[i];
      if KeyOf(call) in keys {
        ghost var j :| 0 <= j < i && KeyOf(r.calls[j]) == KeyOf(call);
        return false;
      }
      if !CallOk(r, call) {
        return false;
      }
      keys := keys + {KeyOf(call)};
      assert r.calls[..i + 1] == r.calls[..i] + [call];
    }
    assert r.calls[..|r.calls|] == r.calls;
    return true;
  }

  // ----- Capture

  function CallsOf(thread: string, calls: seq<UsageCall>): seq<UsageCall> {
    if calls == [] then
      []
    else
      var init, c := CallsOf(thread, calls[..|calls| - 1]), calls[|calls| - 1];
      if c.thread == thread then init + [c] else init
  }

  function TurnsOf(thread: string, turns: seq<Turn>): seq<DeletedTurn> {
    if turns == [] then
      []
    else
      var init, t := TurnsOf(thread, turns[..|turns| - 1]), turns[|turns| - 1];
      if t.thread == thread then
        init + [DeletedTurn(t.turnId, t.model, t.tier, t.startedAt, t.completedAt, t.durationMs, t.status)]
      else
        init
  }

  function InteractionsOf(thread: string, edges: seq<AgentInteraction>): seq<AgentInteraction> {
    if edges == [] then
      []
    else
      var init, e := InteractionsOf(thread, edges[..|edges| - 1]), edges[|edges| - 1];
      if e.parentThread == thread || e.childThread == thread then init + [e] else init
  }

  function FindTask(thread: string, tasks: seq<Task>): Option<Task> {
    if tasks == [] then
      None
    else if tasks[0].thread == thread then
      Some(tasks[0])
    else
      FindTask(thread, tasks[1..])
  }

  datatype CaptureError = SessionAbsent | InvalidCapture

  /** Freezes everything the dataset knows about one thread. */
  ghost function FromDataset(shorten: string -> string, thread: string, title: string, capturedAt: Instant, d: Rollout)
    : (r: Outcome<Record, CaptureError>)
    ensures r.Success? ==> Valid(r.value) && r.value.status == Pending && r.value.deletedAt == None
  {
    match FindTask(thread, d.tasks)
    case None => Failure(SessionAbsent)
    case Some(task) =>
      var record := Record(
                      thread, shorten(title), task.parent, task.cwd, task.source, task.createdAt, task.updatedAt,
                      capturedAt, None, Pending,
                      CallsOf(thread, d.calls), TurnsOf(thread, d.turns), InteractionsOf(thread, d.interactions));
      if Valid(record) then Success(record) else Failure(InvalidCapture)
  }

  // ----- Merge with evidence saved earlier

  predicate EventIdLe(a: Option<string>, b: Option<string>) {
    a.None? || (b.Some? && StringLe(a.value, b.value))
  }

  /** The order of saved calls: by time, then by event id with calls that have none first. */
  predicate CallLe(a: UsageCall, b: UsageCall) {
    a.timestamp < b.timestamp || (a.timestamp == b.timestamp && EventIdLe(a.eventId, b.eventId))
  }

  lemma CallLeIsTotalPreorder()
    ensures TotalPreorder(CallLe)
  {
    forall a: UsageCall, b: UsageCall ensures CallLe(a, b) || CallLe(b, a) {
      if a.eventId.Some? && b.eventId.Some? {
        StringLeTotal(a.eventId.value, b.eventId.value);
      }
    }
    forall a: UsageCall, b: UsageCall, c: UsageCall | CallLe(a, b) && CallLe(b, c) ensures CallLe(a, c) {
      if a.timestamp == b.timestamp == c.timestamp && a.eventId.Some? {
        StringLeTransitive(a.eventId.value, b.eventId.value, c.eventId.value);
      }
    }
  }

  predicate HasTurn(turns: seq<DeletedTurn>, turnId: string) {
    exists i :: 0 <= i < |turns| && turns[i].turnId == turnId
  }

  /** `incoming` followed by the previous turns whose id it does not have yet. */
  function MergeTurns(previous: seq<DeletedTurn>, incoming: seq<DeletedTurn>): seq<DeletedTurn> {
    if previous == [] then
      incoming
    else
      var merged := MergeTurns(previous[..|previous| - 1], incoming);
      var turn := previous[|previous| - 1];
      if HasTurn(merged, turn.turnId) then merged else merged + [turn]
  }

  function MergeInteractions(previous: seq<AgentInteraction>, incoming: seq<AgentInteraction>): seq<AgentInteraction> {
    if previous == [] then
      incoming
    else
      var merged := MergeInteractions(previous[..|previous| - 1], incoming);
      var edge := previous[|previous| - 1];
      if edge in merged then merged else merged + [edge]
  }

  function Or<T>(a: Option<T>, b: Option<T>): Option<T> {
    if a.Some? then a else b
  }

  /** `Option::max` on instants, where a missing instant is the smallest. */
  function Later(a: Option<Instant>, b: Option<Instant>): Option<Instant> {
    if a.None? then b else if b.None? then a else Some(Max(a.value, b.value))
  }

  ghost predicate Agree(saved: map<CallKey, UsageCall>, added: map<CallKey, UsageCall>) {
    forall k :: k in saved && k in added ==> saved[k] == added[k]
  }

  /** Neither record contradicts the other about the project or about an event both have. */
  ghost predicate Compatible(previous: Record, incoming: Record) {
    && previous.thread == incoming.thread
    && (previous.cwd.None? || incoming.cwd.None? || previous.cwd == incoming.cwd)
    && Agree(KeyMap(previous.calls), KeyMap(incoming.calls))
  }

  /** Everything of a merged record except the order of its calls. */
  function MergedFields(previous: Record, incoming: Record, calls: seq<UsageCall>): Record {
    incoming.(
      calls := calls,
      turns := MergeTurns(previous.turns, incoming.turns),
      interactions := MergeInteractions(previous.interactions, incoming.interactions),
      capturedAt := Max(incoming.capturedAt, previous.capturedAt),
      createdAt := Or(incoming.createdAt, previous.createdAt),
      updatedAt := Later(incoming.updatedAt, previous.updatedAt),
      cwd := Or(incoming.cwd, previous.cwd),
      source := Or(incoming.source, previous.source),
      parent := Or(incoming.parent, previous.parent))
  }

  /**
   `merged` is a possible result of merging `incoming` into `previous`.  The code
   collects the calls from a hash map and sorts them, so the order of calls that
   tie in `CallLe` is arbitrary.
   */
  ghost predicate Merges(previous: Record, incoming: Record, merged: Record) {
    && Valid(previous)
    && Compatible(previous, incoming)
    && merged == MergedFields(previous, incoming, merged.calls)
    && DistinctKeys(merged.calls)
    && KeyMap(merged.calls) == KeyMap(previous.calls) + KeyMap(incoming.calls)
    && Sorted(CallLe, merged.calls)
    && Valid(merged)
  }

  datatype MergeResult =
    | Merged(record: Record)
    | InvalidSavedRecord
    | OwnerChanged
    | ProjectChanged
    | EventConflict
    | MergedRecordInvalid

  /** Lists the values of a hash map in an order the caller cannot predict. */
  method IntoValues(m: map<CallKey, UsageCall>) returns (calls: seq<UsageCall>)
    requires forall k :: k in m ==> KeyOf(m[k]) == k
    ensures DistinctKeys(calls) && KeyMap(calls) == m
  {
    hide KeyMap, DistinctKeys, KeyOf;
    calls := [];
    var rest := m;
    KeyMapOfNothing();
    while rest != map[]
      invariant rest.Keys <= m.Keys
      invariant forall k :: k in rest ==> rest[k] == m[k]
      invariant DistinctKeys(calls)
      invariant KeyMap(calls) == m - rest.Keys
      decreases |rest|
    {
      var k :| k in rest;
      KeyMapExtend(calls, rest[k]);
      calls := calls + [rest[k]];
      OneKeyLess(m, rest, k);
      rest := rest - {k};
    }
  }

  lemma KeyMapOfNothing()
    ensures KeyMap([]) == map[] && DistinctKeys([])
  {
  }

  lemma OneKeyLess(m: map<CallKey, UsageCall>, rest: map<CallKey, UsageCall>, k: CallKey)
    requires k in rest && rest.Keys <= m.Keys
    ensures |rest - {k}| < |rest| && (rest - {k}).Keys == rest.Keys - {k}
    ensures m - (rest - {k}).Keys == (m - rest.Keys)[k := m[k]]
  {
    assert (rest - {k}).Keys == rest.Keys - {k};
    assert |rest.Keys - {k}| < |rest.Keys|;
  }

  /** The map built from the previous calls and then extended with the incoming ones. */
  method UnionCalls(previous: seq<UsageCall>, incoming: seq<UsageCall>)
    returns (conflict: bool, calls: map<CallKey, UsageCall>)
    requires DistinctKeys(incoming)
    ensures conflict <==> !Agree(KeyMap(previous), KeyMap(incoming))
    ensures !conflict ==> calls == KeyMap(previous) + KeyMap(incoming)
  {
    hide KeyOf, DistinctKeys;
    calls := KeyMap(previous);
    conflict := false;
    ghost var saved := KeyMap(previous);
    assert incoming[..0] == [];
    for i := 0 to |incoming|
      invariant calls == saved + KeyMap(incoming[..i])
      invariant Agree(saved, KeyMap(incoming[..i]))
    {
      var call := incoming[i];
      assert incoming[..i + 1] == incoming[..i] + [call];
      KeyMapExtend(incoming[..i], call);
      DistinctPrefix(incoming, i);
      if KeyOf(call) in calls {
        if calls[KeyOf(call)] != call {
          conflict := true;
          KeyMapFacts(incoming);
          ghost var k := KeyOf(call);
          assert k in saved && k in KeyMap(incoming) && saved[k] != KeyMap(incoming)[k];
          return;
        }
      } else {
        calls := calls[KeyOf(call) := call];
      }
    }
    assert incoming[..|incoming|] == incoming;
  }

  lemma DistinctPrefix(calls: seq<UsageCall>, i: nat)
    requires DistinctKeys(calls) && i < |calls|
    ensures KeyOf(calls[i]) !in KeyMap(calls[..i])
  {
    KeyMapFacts(calls[..i]);
  }

  /** Merges saved evidence into a new capture, or refuses and says why. */
  method MergeSavedRecord(previous: Record, incoming: Record) returns (result: MergeResult)
    requires Valid(incoming)
    ensures result.Merged? ==> Merges(previous, incoming, result.record)
    ensures result.InvalidSavedRecord? ==> !Valid(previous)
    ensures result.OwnerChanged? || result.ProjectChanged? || result.EventConflict? ==> !Compatible(previous, incoming)
    ensures result.MergedRecordInvalid? ==> forall merged :: !Merges(previous, incoming, merged)
  {
    var ok := Validate(previous);
    if !ok {
      return InvalidSavedRecord;
    }
    if previous.thread != incoming.thread {
      return OwnerChanged;
    }
    if previous.cwd.Some? && incoming.cwd.Some? && previous.cwd != incoming.cwd {
      return ProjectChanged;
    }
    var conflict, union := UnionCalls(previous.calls, incoming.calls);
    if conflict {
      return EventConflict;
    }
    KeyMapFacts(previous.calls);
    KeyMapFacts(incoming.calls);
    var values := IntoValues(union);
    var calls := Sort(CallLe, values);
    SortedCallsKeepKeys(values);
    var merged := MergedFields(previous, incoming, calls);
    ok := Validate(merged);
    if ok {
      result := Merged(merged);
    } else {
      forall other ensures !Merges(previous, incoming, other) {
        if Merges(previous, incoming, other) {
          KeyMapDeterminesMultiset(calls, other.calls);
          SameCallsSameValidity(merged, other);
        }
      }
      result := MergedRecordInvalid;
    }
  }

  lemma SortedCallsKeepKeys(values: seq<UsageCall>)
    requires DistinctKeys(values)
    ensures
      var calls := Sort(CallLe, values);
      Sorted(CallLe, calls) && DistinctKeys(calls) && KeyMap(calls) == KeyMap(values)
  {
    CallLeIsTotalPreorder();
    SortFacts(CallLe, values);
    var calls := Sort(CallLe, values);
    PermutationKeepsKeys(values, calls);
  }

  lemma PermutationKeepsKeys(s: seq<UsageCall>, t: seq<UsageCall>)
    requires DistinctKeys(s) && multiset(s) == multiset(t)
    ensures DistinctKeys(t) && KeyMap(t) == KeyMap(s)
  {
    forall i, j | 0 <= i < j < |t| ensures KeyOf(t[i]) != KeyOf(t[j]) {
      assert t[i] in multiset(t) && t[j] in multiset(t);
      PermutationHasNoRepeat(s, t, i, j);
    }
    KeyMapSameMembers(s, t);
  }

  lemma PermutationHasNoRepeat(s: seq<UsageCall>, t: seq<UsageCall>, i: nat, j: nat)
    requires DistinctKeys(s) && multiset(s) == multiset(t)
    requires i < j < |t|
    ensures t[i] != t[j]
  {
    assert t == t[..i] + [t[i]] + t[i + 1..j] + [t[j]] + t[j + 1..];
    assert t[i] == t[j] ==> multiset(t)[t[i]] >= 2;
    DistinctCounts(s);
  }

  lemma KeyMapSameMembers(s: seq<UsageCall>, t: seq<UsageCall>)
    requires DistinctKeys(s) && DistinctKeys(t) && multiset(s) == multiset(t)
    ensures KeyMap(t) == KeyMap(s)
  {
    hide *;
    KeyMapFacts(s);
    KeyMapFacts(t);
    forall k ensures k in KeyMap(s) <==> k in KeyMap(t) {
      if k in KeyMap(s) {
        assert KeyMap(s)[k] in multiset(t);
      }
      if k in KeyMap(t) {
        assert KeyMap(t)[k] in multiset(s);
      }
    }
    forall k | k in KeyMap(s) ensures KeyMap(s)[k] == KeyMap(t)[k] {
      assert KeyMap(s)[k] in multiset(t);
    }
  }

  lemma SameCallsSameValidity(a: Record, b: Record)
    requires multiset(a.calls) == multiset(b.calls) && a.(calls := b.calls) == b
    requires Valid(b)
    ensures Valid(a)
  {
    assert |a.calls| == |multiset(a.calls)| == |multiset(b.calls)| == |b.calls|;
    PermutationKeepsKeys(b.calls, a.calls);
    forall i | 0 <= i < |a.calls| ensures CallOk(a, a.calls[i]) {
      assert a.calls[i] in multiset(b.calls);
      var j :| 0 <= j < |b.calls| && b.calls[j] == a.calls[i];
      assert CallOk(b, b.calls[j]);
    }
  }

  // ----- What a merge keeps

  lemma {:induction false} MergeTurnsKeeps(previous: seq<DeletedTurn>, incoming: seq<DeletedTurn>)
    ensures incoming <= MergeTurns(previous, incoming)
    ensures forall t :: t in previous ==> HasTurn(MergeTurns(previous, incoming), t.turnId)
  {
    if previous != [] {
      var init, turn := previous[..|previous| - 1], previous[|previous| - 1];
      MergeTurnsKeeps(init, incoming);
      var merged, all := MergeTurns(init, incoming), MergeTurns(previous, incoming);
      assert merged <= all;
      assert previous == init + [turn];
      forall t | t in previous ensures HasTurn(all, t.turnId) {
        if HasTurn(merged, t.turnId) {
          var i :| 0 <= i < |merged| && merged[i].turnId == t.turnId;
          assert all[i].turnId == t.turnId;
        } else {
          assert all[|all| - 1] == turn;
        }
      }
    }
  }

  lemma {:induction false} MergeInteractionsKeeps(previous: seq<AgentInteraction>, incoming: seq<AgentInteraction>)
    ensures incoming <= MergeInteractions(previous, incoming)
    ensures forall e :: e in previous ==> e in MergeInteractions(previous, incoming)
  {
    if previous != [] {
      MergeInteractionsKeeps(previous[..|previous| - 1], incoming);
      assert previous == previous[..|previous| - 1] + [previous[|previous| - 1]];
    }
  }

  /** Everything `r` proves is still proved by `later`. */
  ghost predicate Preserves(r: Record, later: Record) {
    && r.thread == later.thread
    && (forall k :: k in KeyMap(r.calls) ==> k in KeyMap(later.calls) && KeyMap(later.calls)[k] == KeyMap(r.calls)[k])
    && r.capturedAt <= later.capturedAt
    && (forall t :: t in r.turns ==> HasTurn(later.turns, t.turnId))
    && (forall e :: e in r.interactions ==> e in later.interactions)
    && (r.cwd.Some? ==> later.cwd == r.cwd)
  }

  /** A merge keeps every event, turn id and edge of both sides and never moves the capture time back. */
  lemma MergePreservesBoth(previous: Record, incoming: Record, merged: Record)
    requires Valid(incoming) && Merges(previous, incoming, merged)
    ensures Preserves(previous, merged)
    ensures Preserves(incoming, merged)
    ensures forall c :: c in merged.calls <==> c in previous.calls || c in incoming.calls
  {
    MergeTurnsKeeps(previous.turns, incoming.turns);
    MergeInteractionsKeeps(previous.interactions, incoming.interactions);
    KeyMapFacts(previous.calls);
    KeyMapFacts(incoming.calls);
    KeyMapFacts(merged.calls);
    forall t | t in incoming.turns ensures HasTurn(merged.turns, t.turnId) {
      var i :| 0 <= i < |incoming.turns| && incoming.turns[i] == t;
      assert merged.turns[i] == t;
    }
  }

  /** The calls of a merged record are in time order, at one moment those without an id first, then by id. */
  lemma MergedInTimeOrder(previous: Record, incoming: Record, merged: Record, i: nat, j: nat)
    requires Merges(previous, incoming, merged) && i < j < |merged.calls|
    ensures
      var a, b := merged.calls[i], merged.calls[j];
      || a.timestamp < b.timestamp
      || (&& a.timestamp == b.timestamp
          && (a.eventId.None? || (b.eventId.Some? && Lexicographic(a.eventId.value, b.eventId.value))))
  {
    hide Valid, DistinctKeys, KeyMap, Lexicographic, MergedFields;
    var a, b := merged.calls[i], merged.calls[j];
    assert CallLe(a, b);
    if a.eventId.Some? && b.eventId.Some? {
      StringLeIsLexicographic(a.eventId.value, b.eventId.value);
    }
  }

  /** Two calls are the same event: by their id if they have one, otherwise by everything that is known of them. */
  predicate SameEvent(a: UsageCall, b: UsageCall) {
    if a.eventId.Some? then a.eventId == b.eventId else a == b
  }

  lemma KeyIsEvent(a: UsageCall, b: UsageCall)
    ensures KeyOf(a) == KeyOf(b) <==> SameEvent(a, b)
  {
  }

  /** Two captures contradict each other exactly if they hold different calls under one event id. */
  lemma ConflictsByEventId(previous: seq<UsageCall>, incoming: seq<UsageCall>)
    requires DistinctKeys(previous) && DistinctKeys(incoming)
    ensures Agree(KeyMap(previous), KeyMap(incoming))
       <==> forall a, b :: a in previous && b in incoming && a.eventId.Some? && a.eventId == b.eventId ==> a == b
  {
    hide KeyOf, KeyMap, DistinctKeys;
    KeyMapFacts(previous);
    KeyMapFacts(incoming);
    if Agree(KeyMap(previous), KeyMap(incoming)) {
      forall a, b | a in previous && b in incoming && a.eventId.Some? && a.eventId == b.eventId ensures a == b {
        KeyIsEvent(a, b);
      }
    }
    if forall a, b :: a in previous && b in incoming && a.eventId.Some? && a.eventId == b.eventId ==> a == b {
      forall k | k in KeyMap(previous) && k in KeyMap(incoming) ensures KeyMap(previous)[k] == KeyMap(incoming)[k] {
        KeyIsEvent(KeyMap(previous)[k], KeyMap(incoming)[k]);
      }
    }
  }
}
