/** Usage calls and the rollout dataset they are collected in (src/domain.rs). */
module Dataset {
  import opened Time
  import opened Options
  import opened Saturating
  import opened Tokens

  datatype TurnStatus = InProgress | TurnCompleted | TurnInterrupted | TurnFailed | TurnStale | TurnUnknown

  datatype TaskStatus =
    | Running | WaitingApproval | WaitingInput | Idle | Completed | Interrupted | Failed | Stale | Unknown

  /**
   One observed usage event.  The ledger's saved form of a call has exactly these
   fields and both conversions copy all of them, so the two are one type here.
   */
  datatype UsageCall = UsageCall(
    timestamp: Instant,
    thread: string,
    turn: Option<string>,
    eventId: Option<string>,
    identityExact: bool,
    model: Option<string>,
    tier: Option<string>,
    tokens: TokenUsage,
    requestExact: bool)

  /**
   The identity under which a call is saved: its event id, or else a digest of
   the whole call.  SHA-256 over the JSON form is taken to be injective.
   */
  datatype CallKey = Event(id: string) | Observation(call: UsageCall)

  function KeyOf(call: UsageCall): CallKey {
    match call.eventId
    case Some(id) => Event(id)
    case None => Observation(call)
  }

  datatype Provenance = Live | ServerSnapshot | LocalExact | Inferred | Estimated | StaleSource | UnknownSource

  datatype InteractionKind = UnknownKind | SpawnStarted | Interacted

  datatype AgentInteraction = AgentInteraction(
    kind: InteractionKind,
    parentThread: string,
    parentTurn: string,
    childThread: string,
    callId: string,
    requestedAt: Option<Instant>,
    occurredAt: Option<Instant>,
    provenance: Provenance)

  /** A task (thread) of the dataset, without the fields the window projection fills in later. */
  datatype Task = Task(
    thread: string,
    parent: Option<string>,
    archived: bool,
    title: string,
    cwd: Option<string>,
    source: Option<string>,
    createdAt: Option<Instant>,
    updatedAt: Option<Instant>,
    status: TaskStatus,
    tokenUsage: TokenUsage,
    turnCount: nat)

  datatype Turn = Turn(
    thread: string,
    turnId: string,
    model: Option<string>,
    reasoningEffort: Option<string>,
    tier: Option<string>,
    messagePreview: Option<string>,
    startedAt: Option<Instant>,
    completedAt: Option<Instant>,
    durationMs: Option<nat>,
    status: TurnStatus,
    tokenUsage: TokenUsage)

  /** The value of a rollout dataset. */
  datatype Rollout = Rollout(
    calls: seq<UsageCall>,
    tasks: seq<Task>,
    turns: seq<Turn>,
    interactions: seq<AgentInteraction>,
    warnings: seq<string>,
    skippedLines: U64)

  /** Saved calls by key; with distinct keys this is the whole evidence of a call list. */
  function KeyMap(calls: seq<UsageCall>): map<CallKey, UsageCall> {
    if calls == [] then
      map[]
    else
      KeyMap(calls[..|calls| - 1])[KeyOf(calls[|calls| - 1]) := calls[|calls| - 1]]
  }

  ghost predicate DistinctKeys(calls: seq<UsageCall>) {
    forall i, j :: 0 <= i < j < |calls| ==> KeyOf(calls[i]) != KeyOf(calls[j])
  }

  lemma {:induction false} KeyMapFacts(calls: seq<UsageCall>)
    ensures forall k :: k in KeyMap(calls) ==> KeyMap(calls)[k] in calls && KeyOf(KeyMap(calls)[k]) == k
    ensures forall c :: c in calls ==> KeyOf(c) in KeyMap(calls)
    ensures DistinctKeys(calls) ==> forall c :: c in calls ==> KeyMap(calls)[KeyOf(c)] == c
  {
    if calls != [] {
      KeyMapFacts(calls[..|calls| - 1]);
      assert calls == calls[..|calls| - 1] + [calls[|calls| - 1]];
    }
  }

  lemma KeyMapExtend(calls: seq<UsageCall>, call: UsageCall)
    ensures KeyMap(calls + [call]) == KeyMap(calls)[KeyOf(call) := call]
    ensures DistinctKeys(calls) && KeyOf(call) !in KeyMap(calls) ==> DistinctKeys(calls + [call])
  {
    assert (calls + [call])[..|calls|] == calls;
    KeyMapFacts(calls);
  }

  /** Call lists with distinct keys and the same key map hold the same calls. */
  lemma {:induction false} KeyMapDeterminesMultiset(s: seq<UsageCall>, t: seq<UsageCall>)
    requires DistinctKeys(s) && DistinctKeys(t)
    requires KeyMap(s) == KeyMap(t)
    ensures multiset(s) == multiset(t)
  {
    KeyMapFacts(s);
    KeyMapFacts(t);
    DistinctCounts(s);
    DistinctCounts(t);
    forall c ensures multiset(s)[c] == multiset(t)[c] {
      assert c in s <==> c in t;
    }
  }

  lemma {:induction false} DistinctCounts(s: seq<UsageCall>)
    requires DistinctKeys(s)
    ensures forall c :: multiset(s)[c] == if c in s then 1 else 0
  {
    if s != [] {
      DistinctCounts(s[..|s| - 1]);
      assert s == s[..|s| - 1] + [s[|s| - 1]];
    }
  }
}
