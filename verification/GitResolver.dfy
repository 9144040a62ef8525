/**
 The Git evidence resolver (src/git_repository.rs): two in-memory caches and the
 persistent one, a per-collection budget and a set of failed workspaces.  Git and
 the file system are an arbitrary function of time, so that "this answer is
 younger than one TTL" means: it is what they answered at some moment that recent.
 All clock reads of one inspection are parameters; `slack` bounds its duration.
 */
module GitResolver {
  import opened Time
  import opened Options
  import opened Saturating
  import opened GitCache
  import GitRemote

  const MAX_WORKSPACES: nat := 256
  const COLLECTION_BUDGET: nat := 2_500
  const COMMAND_TIMEOUT: nat := 750
  const TTL: nat := 300_000

  datatype Path = Path(absolute: bool, components: seq<string>)

  datatype Reported = Unavailable | Confirmed(evidence: Evidence)
  datatype Inspection = Found(evidence: Evidence) | ConfirmedAbsent | NotAvailable | BudgetExhausted

  function ReportOf(inspection: Inspection): Reported {
    match inspection
    case Found(evidence) => Confirmed(evidence)
    case ConfirmedAbsent => Confirmed(ConfirmedNonRepository)
    case NotAvailable => Unavailable
    case BudgetExhausted => Unavailable
  }

  // ----- Git and the file system

  datatype CommandResult = Output(text: string) | Exited(code: int) | NotCompleted

  /** Everything outside the process: what the commands and file checks answer at each moment. */
  datatype World = World(
    toplevel: (Path, Instant) -> CommandResult,
    origin: (Path, Instant) -> CommandResult,
    canonical: (string, Instant) -> Option<Path>,
    unmarked: (Path, Instant) -> bool,
    hash: string -> Option<string>,
    key: Path -> string)

  /** One line without its line end, if there is exactly one. */
  function SingleLine(output: string): Option<string> {
    var s := GitRemote.WithoutSuffix(GitRemote.WithoutSuffix(output, "\n"), "\r");
    if s == [] || '\n' in s || '\r' in s || '\0' in s then None else Some(s)
  }

  datatype RootAnswer = Inside(repository: Path, relative: string) | Outside | NoAnswer

  /** What probing for the repository of `workspace` at `t` tells. */
  function RootAt(world: World, workspace: Path, t: Instant): RootAnswer {
    match world.toplevel(workspace, t)
    case Output(text) =>
      var line := SingleLine(text);
      var repository := if line.Some? then world.canonical(line.value, t) else None;
      if repository.None? || repository.value.absolute != workspace.absolute then
        NoAnswer
      else
        var relative := RelativeRoot(repository.value.components, workspace.components);
        if relative.Some? then Inside(repository.value, relative.value) else NoAnswer
    case Exited(_) => if world.unmarked(workspace, t) then Outside else NoAnswer
    case NotCompleted => NoAnswer
  }

  /** What asking for the remote of `repository` at `t` tells: a fingerprint, that there is none, or nothing. */
  function OriginAt(world: World, repository: Path, t: Instant): Option<Option<string>> {
    match world.origin(repository, t)
    case Output(text) =>
      var line := SingleLine(text);
      var remote := if line.Some? then GitRemote.Normalise(line.value) else None;
      Some(if remote.Some? then world.hash(remote.value) else None)
    case Exited(code) => if code == 1 then Some(None) else None
    case NotCompleted => None
  }

  /** The evidence is what the root probe told at `rootAt` and the remote probe at `originAt`. */
  ghost predicate Grounded(world: World, workspace: Path, evidence: Evidence, rootAt: Instant, originAt: Instant) {
    match evidence
    case ConfirmedNonRepository => RootAt(world, workspace, rootAt).Outside?
    case Repository(fingerprint, relativeRoot) =>
      var answer := RootAt(world, workspace, rootAt);
      && answer.Inside? && answer.relative == relativeRoot
      && OriginAt(world, answer.repository, originAt) == Some(fingerprint)
  }

  /** Grounded in observations after `rootAfter` and `originAfter`, none of them later than `now`. */
  ghost predicate GroundedSince(world: World, workspace: Path, evidence: Evidence,
                                rootAfter: Instant, originAfter: Instant, now: Instant) {
    exists rootAt, originAt :: Grounded(world, workspace, evidence, rootAt, originAt)
                            && rootAfter <= rootAt <= now && originAfter <= originAt <= now
  }

  lemma GroundedSinceWeakens(world: World, workspace: Path, evidence: Evidence,
                             root: Instant, origin: Instant, now: Instant, root': Instant, origin': Instant,
                             now': Instant)
    requires GroundedSince(world, workspace, evidence, root, origin, now)
    requires root' <= root && origin' <= origin && now <= now'
    ensures GroundedSince(world, workspace, evidence, root', origin', now')
  {
    hide Grounded;
    var rootAt, originAt :| Grounded(world, workspace, evidence, rootAt, originAt)
                         && root <= rootAt <= now && origin <= originAt <= now;
  }

  /** The greatest age of the root behind an answer: one TTL, and what two inspections add. */
  function RootAge(slack: nat): int {
    TTL + 2 * slack - 1
  }

  /** The greatest age of the remote behind an answer: two TTLs, and what three inspections add. */
  function OriginAge(slack: nat): int {
    2 * TTL + 3 * slack - 2
  }

  // ----- What each cache promises

  /** A cached workspace expires one TTL after its root and two after its remote were observed. */
  ghost predicate WorkspaceSound(world: World, slack: nat, now: Instant, workspace: Path, cached: Reported,
                                 expires: Instant) {
    cached.Confirmed? &&
      GroundedSince(world, workspace, cached.evidence, expires - TTL - 2 * slack, expires - 2 * TTL - 3 * slack + 1,
                    now)
  }

  ghost predicate OriginSince(world: World, repository: Path, fingerprint: Option<string>, after: Instant,
                              now: Instant) {
    exists at :: after <= at <= now && OriginAt(world, repository, at) == Some(fingerprint)
  }

  ghost predicate FingerprintSound(world: World, slack: nat, now: Instant, repository: Path,
                                   fingerprint: Option<string>, expires: Instant) {
    OriginSince(world, repository, fingerprint, expires - TTL - slack, now)
  }

  ghost predicate EntrySound(world: World, slack: nat, now: Instant, workspace: Path, entry: Entry) {
    GroundedSince(world, workspace, entry.evidence, entry.checkedAt - slack, entry.checkedAt - TTL - 2 * slack + 1, now)
  }

  ghost predicate EntriesSound(world: World, slack: nat, now: Instant, entries: Entries) {
    forall workspace :: world.key(workspace) in entries ==>
      EntrySound(world, slack, now, workspace, entries[world.key(workspace)])
  }

  ghost predicate FileSound(world: World, slack: nat, now: Instant, file: Option<CacheFile>) {
    file.Some? ==> EntriesSound(world, slack, now, file.value.entries)
  }

  ghost predicate WorkspacesSound(world: World, slack: nat, now: Instant, cache: map<Path, (Reported, Instant)>) {
    forall w :: w in cache ==> WorkspaceSound(world, slack, now, w, cache[w].0, cache[w].1)
  }

  ghost predicate FingerprintsSound(world: World, slack: nat, now: Instant,
                                    cache: map<Path, (Option<string>, Instant)>) {
    forall r :: r in cache ==> FingerprintSound(world, slack, now, r, cache[r].0, cache[r].1)
  }

  /** Workspace paths are hashed without collisions. */
  ghost predicate Injective(world: World) {
    forall a, b :: world.key(a) == world.key(b) ==> a == b
  }

  lemma EntriesStaySound(world: World, slack: nat, now: Instant, now': Instant, entries: Entries)
    requires EntriesSound(world, slack, now, entries) && now <= now'
    ensures EntriesSound(world, slack, now', entries)
  {
    hide GroundedSince;
    forall w | world.key(w) in entries ensures EntrySound(world, slack, now', w, entries[world.key(w)]) {
      var e := entries[world.key(w)];
      assert EntrySound(world, slack, now, w, e);
      GroundedSinceWeakens(world, w, e.evidence, e.checkedAt - slack, e.checkedAt - TTL - 2 * slack + 1, now,
                           e.checkedAt - slack, e.checkedAt - TTL - 2 * slack + 1, now');
    }
  }

  lemma FewerEntriesStaySound(world: World, slack: nat, now: Instant, entries: Entries, fewer: Entries)
    requires EntriesSound(world, slack, now, entries)
    requires fewer.Keys <= entries.Keys && forall key :: key in fewer ==> fewer[key] == entries[key]
    ensures EntriesSound(world, slack, now, fewer)
  {
    hide EntrySound;
  }

  lemma WorkspacesStaySound(world: World, slack: nat, now: Instant, now': Instant,
                            cache: map<Path, (Reported, Instant)>)
    requires WorkspacesSound(world, slack, now, cache) && now <= now'
    ensures WorkspacesSound(world, slack, now', cache)
  {
    hide GroundedSince;
    forall w | w in cache ensures WorkspaceSound(world, slack, now', w, cache[w].0, cache[w].1) {
      var expires := cache[w].1;
      assert WorkspaceSound(world, slack, now, w, cache[w].0, expires);
      GroundedSinceWeakens(world, w, cache[w].0.evidence,
                           expires - TTL - 2 * slack, expires - 2 * TTL - 3 * slack + 1, now,
                           expires - TTL - 2 * slack, expires - 2 * TTL - 3 * slack + 1, now');
    }
  }

  lemma FingerprintsStaySound(world: World, slack: nat, now: Instant, now': Instant,
                              cache: map<Path, (Option<string>, Instant)>)
    requires FingerprintsSound(world, slack, now, cache) && now <= now'
    ensures FingerprintsSound(world, slack, now', cache)
  {
    hide OriginAt;
    forall r | r in cache ensures FingerprintSound(world, slack, now', r, cache[r].0, cache[r].1) {
      assert FingerprintSound(world, slack, now, r, cache[r].0, cache[r].1);
    }
  }

  /** A probe that asked for the root at `t.root` and used a remote observed since `origin`. */
  lemma FoundIsGrounded(world: World, workspace: Path, t: Instant, fingerprint: Option<string>, origin: Instant,
                        now: Instant)
    requires RootAt(world, workspace, t).Inside? && t <= now
    requires OriginSince(world, RootAt(world, workspace, t).repository, fingerprint, origin, now)
    ensures GroundedSince(world, workspace, Repository(fingerprint, RootAt(world, workspace, t).relative), t, origin,
                          now)
  {
    hide RootAt, OriginAt;
    var at :| origin <= at <= now && OriginAt(world, RootAt(world, workspace, t).repository, at) == Some(fingerprint);
    assert Grounded(world, workspace, Repository(fingerprint, RootAt(world, workspace, t).relative), t, at);
  }

  lemma AbsenceIsGrounded(world: World, workspace: Path, t: Instant, now: Instant)
    requires RootAt(world, workspace, t).Outside? && t <= now
    ensures GroundedSince(world, workspace, ConfirmedNonRepository, t, t, now)
  {
    assert Grounded(world, workspace, ConfirmedNonRepository, t, t);
  }

  lemma CachedIsGrounded(world: World, slack: nat, now: Instant, cache: map<Path, (Reported, Instant)>,
                         workspace: Path, at: Instant)
    requires WorkspacesSound(world, slack, now, cache) && workspace in cache && at < cache[workspace].1
    ensures cache[workspace].0.Confirmed?
    ensures GroundedSince(world, workspace, cache[workspace].0.evidence, at - RootAge(slack), at - OriginAge(slack),
                          now)
  {
    hide GroundedSince;
    var (cached, expires) := cache[workspace];
    assert WorkspaceSound(world, slack, now, workspace, cached, expires);
    GroundedSinceWeakens(world, workspace, cached.evidence,
                         expires - TTL - 2 * slack, expires - 2 * TTL - 3 * slack + 1, now,
                         at - RootAge(slack), at - OriginAge(slack), now);
  }

  // ----- One inspection's clock reads

  /** In program order; a branch that is not taken does not use its reads. */
  datatype Timing = Timing(start: Instant, wall: Instant, rehydrated: Instant, rootBudget: Instant, root: Instant,
                           check: Instant, originBudget: Instant, origin: Instant, discovered: Instant,
                           stored: Instant, remembered: Instant)

  predicate Ordered(t: Timing) {
    && t.start <= t.wall <= t.rehydrated <= t.rootBudget <= t.root <= t.check
    && t.check <= t.originBudget <= t.origin <= t.discovered <= t.stored <= t.remembered
  }

  /** Evidence taken over from the persistent cache: both as an answer now and as a cached one. */
  lemma RehydratedIsGrounded(world: World, slack: nat, now: Instant, workspace: Path, evidence: Evidence,
                             remaining: nat, t: Timing)
    requires Ordered(t) && t.remembered <= t.start + slack && 0 < remaining
    requires GroundedSince(world, workspace, evidence,
                           t.wall - TTL + remaining - slack, t.wall - 2 * TTL + remaining - 2 * slack + 1, now)
    ensures WorkspaceSound(world, slack, now, workspace, Confirmed(evidence), t.rehydrated + remaining)
    ensures GroundedSince(world, workspace, evidence, t.start - RootAge(slack), t.start - OriginAge(slack), now)
  {
    hide GroundedSince;
    var root, origin := t.wall - TTL + remaining - slack, t.wall - 2 * TTL + remaining - 2 * slack + 1;
    var expires := t.rehydrated + remaining;
    GroundedSinceWeakens(world, workspace, evidence, root, origin, now, expires - TTL - 2 * slack,
                         expires - 2 * TTL - 3 * slack + 1, now);
    GroundedSinceWeakens(world, workspace, evidence, root, origin, now,
                         t.start - RootAge(slack), t.start - OriginAge(slack), now);
  }

  /** A probe's answer: as an answer now, as a cached one, and as a stored one. */
  lemma ProbedIsGrounded(world: World, slack: nat, now: Instant, workspace: Path, evidence: Evidence, t: Timing)
    requires Ordered(t) && t.remembered <= t.start + slack
    requires GroundedSince(world, workspace, evidence, t.root, t.check - TTL - slack + 1, now)
    ensures WorkspaceSound(world, slack, now, workspace, Confirmed(evidence), t.stored + TTL)
    ensures EntrySound(world, slack, now, workspace, Entry(t.remembered, evidence))
    ensures GroundedSince(world, workspace, evidence, t.start - RootAge(slack), t.start - OriginAge(slack), now)
  {
    hide GroundedSince;
    var root, origin, expires := t.root, t.check - TTL - slack + 1, t.stored + TTL;
    GroundedSinceWeakens(world, workspace, evidence, root, origin, now, expires - TTL - 2 * slack,
                         expires - 2 * TTL - 3 * slack + 1, now);
    GroundedSinceWeakens(world, workspace, evidence, root, origin, now, t.remembered - slack,
                         t.remembered - TTL - 2 * slack + 1, now);
    GroundedSinceWeakens(world, workspace, evidence, root, origin, now,
                         t.start - RootAge(slack), t.start - OriginAge(slack), now);
  }

  function NextCommandTimeout(deadline: Instant, now: Instant): (r: Option<nat>)
    ensures r.Some? <==> now < deadline
    ensures r.Some? ==> 0 < r.value <= COMMAND_TIMEOUT && now + r.value <= deadline
  {
    if now >= deadline then None
    else if deadline - now < COMMAND_TIMEOUT then Some(deadline - now)
    else Some(COMMAND_TIMEOUT)
  }

  // ----- One collection's probes

  /** One workspace that was probed: how many commands ran, and whether there was an answer. */
  datatype Probe = Probe(workspace: Path, commands: nat, answered: bool)

  ghost function CommandsOf(probes: seq<Probe>): nat {
    if probes == [] then 0 else CommandsOf(probes[..|probes| - 1]) + probes[|probes| - 1].commands
  }

  /** The bounds of one collection: few workspaces, two commands each, none again after a failure. */
  ghost predicate WithinBudget(probes: seq<Probe>) {
    && |probes| <= MAX_WORKSPACES
    && (forall i :: 0 <= i < |probes| ==> probes[i].commands <= 2)
    && forall i, j :: 0 <= i < j < |probes| && !probes[i].answered ==> probes[i].workspace != probes[j].workspace
  }

  ghost predicate MissesAre(probes: seq<Probe>, misses: set<Path>) {
    && (forall i :: 0 <= i < |probes| && !probes[i].answered ==> probes[i].workspace in misses)
    && forall w :: w in misses ==> exists i :: 0 <= i < |probes| && !probes[i].answered && probes[i].workspace == w
  }

  ghost predicate ProbedOnce(before: seq<Probe>, after: seq<Probe>, workspace: Path, answered: bool) {
    |after| == |before| + 1 && after[..|before|] == before
    && after[|before|].workspace == workspace && after[|before|].answered == answered
  }

  lemma ProbeIsCounted(probes: seq<Probe>, misses: set<Path>, probe: Probe)
    requires WithinBudget(probes) && MissesAre(probes, misses)
    requires |probes| < MAX_WORKSPACES && probe.commands <= 2 && probe.workspace !in misses
    ensures WithinBudget(probes + [probe])
    ensures MissesAre(probes + [probe], if probe.answered then misses else misses + {probe.workspace})
    ensures CommandsOf(probes + [probe]) == CommandsOf(probes) + probe.commands
  {
    var more := probes + [probe];
    assert more[..|probes|] == probes;
    var misses' := if probe.answered then misses else misses + {probe.workspace};
    forall w | w in misses' ensures exists i :: 0 <= i < |more| && !more[i].answered && more[i].workspace == w {
      if w in misses {
        var i :| 0 <= i < |probes| && !probes[i].answered && probes[i].workspace == w;
        assert more[i] == probes[i];
      } else {
        assert more[|probes|] == probe;
      }
    }
  }

  lemma OneMoreProbe(probes: seq<Probe>, probe: Probe)
    ensures ProbedOnce(probes, probes + [probe], probe.workspace, probe.answered)
  {
  }

  /** At most 512 commands run in one collection. */
  lemma {:induction false} CommandsAreBounded(probes: seq<Probe>)
    requires WithinBudget(probes)
    ensures CommandsOf(probes) <= 2 * |probes| <= 512
  {
    if probes != [] {
      CommandsAreBounded(probes[..|probes| - 1]);
    }
  }

  // ----- The resolver

  class Resolver {
    const world: World
    ghost const slack: nat
    const persistent: PersistentState?

    var workspaceCache: map<Path, (Reported, Instant)>
    var fingerprints: map<Path, (Option<string>, Instant)>
    var misses: set<Path>
    var inspected: nat
    var deadline: Instant
    var commands: U64
    var cacheHits: U64
    var budgetExhausted: U64

    /** The latest clock read, and the probes of this collection. */
    ghost var clock: Instant
    ghost var probes: seq<Probe>

    ghost predicate CachesSound()
      reads this, persistent
    {
      && WorkspacesSound(world, slack, clock, workspaceCache)
      && FingerprintsSound(world, slack, clock, fingerprints)
      && (persistent != null ==>
            && EntriesSound(world, slack, clock, persistent.entries)
            && FileSound(world, slack, clock, persistent.file))
    }

    ghost predicate CountersExact()
      reads this
    {
      && WithinBudget(probes) && MissesAre(probes, misses)
      && inspected == |probes| && commands == CommandsOf(probes)
      && misses !! workspaceCache.Keys
    }

    ghost predicate Valid()
      reads this, persistent
    {
      Injective(world) && CachesSound() && CountersExact()
    }

    /** A process start, possibly from the file of an earlier process. */
    constructor (world: World, ghost slack: nat, file: Option<CacheFile>, withFile: bool, now: Instant)
      requires Injective(world) && FileSound(world, slack, now, file)
      ensures Valid() && this.world == world && this.slack == slack && clock == now
      ensures persistent != null <==> withFile
      ensures persistent != null ==> fresh(persistent) && persistent.file == file
      ensures probes == [] && misses == {} && workspaceCache == map[] && fingerprints == map[]
      ensures deadline == now + COLLECTION_BUDGET
      ensures persistent != null ==> persistent.entries == match ReadCache(file) case Some(e) => e case None => map[]
    {
      this.world, this.slack := world, slack;
      var state := new PersistentState(file);
      persistent := if withFile then state else null;
      workspaceCache, fingerprints, misses := map[], map[], {};
      inspected, deadline := 0, now + COLLECTION_BUDGET;
      commands, cacheHits, budgetExhausted := 0, 0, 0;
      clock, probes := now, [];
    }

    method BeginCollection(now: Instant)
      requires Valid() && clock <= now
      modifies this
      ensures Valid() && clock == now
      ensures workspaceCache == old(workspaceCache) && fingerprints == old(fingerprints)
      ensures probes == [] && misses == {} && deadline == now + COLLECTION_BUDGET
    {
      Advance(now);
      misses, inspected := {}, 0;
      deadline := now + COLLECTION_BUDGET;
      commands, cacheHits, budgetExhausted := 0, 0, 0;
      probes := [];
    }

    ghost method Advance(now: Instant)
      requires CachesSound() && clock <= now
      modifies `clock
      ensures CachesSound() && clock == now
    {
      hide WorkspacesSound, FingerprintsSound, EntriesSound;
      WorkspacesStaySound(world, slack, clock, now, workspaceCache);
      FingerprintsStaySound(world, slack, clock, now, fingerprints);
      if persistent != null {
        EntriesStaySound(world, slack, clock, now, persistent.entries);
        if persistent.file.Some? {
          EntriesStaySound(world, slack, clock, now, persistent.file.value.entries);
        }
      }
      clock := now;
    }

    /** What the lookup of a remote gives: the cached one while it lasts, otherwise the answer within the budget. */
    function FingerprintAt(cache: map<Path, (Option<string>, Instant)>, repository: Path,
                           t: Timing): Option<Option<string>>
      reads `deadline
    {
      if repository in cache && cache[repository].1 > t.check then Some(cache[repository].0)
      else if t.originBudget < deadline then OriginAt(world, repository, t.origin)
      else None
    }

    /** The remotes remembered after that lookup. */
    function FingerprintsAfter(cache: map<Path, (Option<string>, Instant)>, repository: Path, t: Timing)
      : map<Path, (Option<string>, Instant)>
      reads `deadline
    {
      if repository in cache && cache[repository].1 > t.check then cache
      else if FingerprintAt(cache, repository, t).None? then cache - {repository}
      else (cache - {repository})[repository := (FingerprintAt(cache, repository, t).value, t.discovered + TTL)]
    }

    /** What a probe tells: only an authoritative answer within the budget is confirmed. */
    function ProbeAnswer(cache: map<Path, (Option<string>, Instant)>, workspace: Path, t: Timing): Reported
      reads `deadline
    {
      var answer := RootAt(world, workspace, t.root);
      if !workspace.absolute || t.rootBudget >= deadline || answer.NoAnswer? then Unavailable
      else if answer.Outside? then Confirmed(ConfirmedNonRepository)
      else
        var fingerprint := FingerprintAt(cache, answer.repository, t);
        if fingerprint.Some? then Confirmed(Repository(fingerprint.value, answer.relative)) else Unavailable
    }

    function FingerprintsAfterProbe(cache: map<Path, (Option<string>, Instant)>, workspace: Path, t: Timing)
      : map<Path, (Option<string>, Instant)>
      reads `deadline
    {
      var answer := RootAt(world, workspace, t.root);
      if workspace.absolute && t.rootBudget < deadline && answer.Inside?
      then FingerprintsAfter(cache, answer.repository, t)
      else cache
    }

    /** The remote of a repository: from the cache while it lasts, otherwise one command. */
    method LookUpFingerprint(repository: Path, t: Timing)
      returns (r: Option<Option<string>>, exhausted: bool, ghost ran: nat)
      requires Ordered(t) && t.remembered <= clock && t.remembered <= t.start + slack && commands < 1024
      requires FingerprintsSound(world, slack, clock, fingerprints)
      modifies `fingerprints, `commands
      ensures FingerprintsSound(world, slack, clock, fingerprints)
      ensures ran <= 1 && commands == old(commands) + ran
      ensures ran > 0 ==> t.originBudget < deadline
      ensures exhausted ==> r.None?
      ensures r == FingerprintAt(old(fingerprints), repository, t)
      ensures fingerprints == FingerprintsAfter(old(fingerprints), repository, t)
      ensures r.Some? ==> OriginSince(world, repository, r.value, t.check - TTL - slack + 1, clock)
    {
      hide OriginAt;
      if repository in fingerprints && fingerprints[repository].1 > t.check {
        assert FingerprintSound(world, slack, clock, repository, fingerprints[repository].0,
                                fingerprints[repository].1);
        return Some(fingerprints[repository].0), false, 0;
      }
      fingerprints := fingerprints - {repository};
      if NextCommandTimeout(deadline, t.originBudget).None? {
        return None, true, 0;
      }
      commands := Add64(commands, 1);
      var discovered := OriginAt(world, repository, t.origin);
      if discovered.None? {
        return None, false, 1;
      }
      fingerprints := fingerprints[repository := (discovered.value, t.discovered + TTL)];
      assert OriginSince(world, repository, discovered.value, t.origin, clock);
      return discovered, false, 1;
    }

    /** Up to two commands.  Only an authoritative answer is `Found` or `ConfirmedAbsent`. */
    method InspectUncached(workspace: Path, t: Timing) returns (r: Inspection, ghost ran: nat)
      requires Ordered(t) && t.remembered <= clock && t.remembered <= t.start + slack && commands < 1023
      requires FingerprintsSound(world, slack, clock, fingerprints)
      modifies `fingerprints, `commands
      ensures FingerprintsSound(world, slack, clock, fingerprints)
      ensures ran <= 2 && commands == old(commands) + ran
      ensures !workspace.absolute || t.rootBudget >= deadline ==> ran == 0 && !r.Found? && !r.ConfirmedAbsent?
      ensures ReportOf(r) == ProbeAnswer(old(fingerprints), workspace, t)
      ensures fingerprints == FingerprintsAfterProbe(old(fingerprints), workspace, t)
      ensures r.Found? ==> GroundedSince(world, workspace, r.evidence, t.root, t.check - TTL - slack + 1, clock)
      ensures r.ConfirmedAbsent? ==> GroundedSince(world, workspace, ConfirmedNonRepository, t.root, t.root, clock)
    {
      hide RootAt, OriginSince, FingerprintsSound, FingerprintAt, FingerprintsAfter;
      if !workspace.absolute {
        return NotAvailable, 0;
      }
      if NextCommandTimeout(deadline, t.rootBudget).None? {
        return BudgetExhausted, 0;
      }
      commands := Add64(commands, 1);
      var answer := RootAt(world, workspace, t.root);
      if answer.Outside? {
        AbsenceIsGrounded(world, workspace, t.root, clock);
        return ConfirmedAbsent, 1;
      }
      if answer.NoAnswer? {
        return NotAvailable, 1;
      }
      var fingerprint, exhausted;
      ghost var more;
      fingerprint, exhausted, more := LookUpFingerprint(answer.repository, t);
      if exhausted {
        return BudgetExhausted, 1 + more;
      }
      if fingerprint.None? {
        return NotAvailable, 1 + more;
      }
      FoundIsGrounded(world, workspace, t.root, fingerprint.value, t.check - TTL - slack + 1, clock);
      return Found(Repository(fingerprint.value, answer.relative)), 1 + more;
    }

    predicate StoredIsFresh(workspace: Path, wall: Instant)
      reads this, persistent
    {
      && persistent != null && world.key(workspace) in persistent.entries
      && 0 <= wall - persistent.entries[world.key(workspace)].checkedAt < TTL
    }

    /** A stored entry counts while its age is at least zero and below the TTL. */
    method FreshPersistent(workspace: Path, wall: Instant) returns (r: Option<(Evidence, nat)>)
      requires persistent != null ==> EntriesSound(world, slack, clock, persistent.entries)
      requires wall <= clock
      ensures r.Some? <==> StoredIsFresh(workspace, wall)
      ensures r.Some? ==> r.value.0 == persistent.entries[world.key(workspace)].evidence
      ensures r.Some? ==> r.value.1 == TTL - (wall - persistent.entries[world.key(workspace)].checkedAt)
      ensures r.Some? ==> 0 < r.value.1 <= TTL
      ensures r.Some? ==>
                GroundedSince(world, workspace, r.value.0,
                              wall - TTL + r.value.1 - slack, wall - 2 * TTL + r.value.1 - 2 * slack + 1, clock)
    {
      hide GroundedSince;
      if persistent == null || world.key(workspace) !in persistent.entries {
        return None;
      }
      var entry := persistent.entries[world.key(workspace)];
      var age := wall - entry.checkedAt;
      if age < 0 || age >= TTL {
        return None;
      }
      assert EntrySound(world, slack, clock, workspace, entry);
      return Some((entry.evidence, TTL - age));
    }

    ghost predicate Hit(workspace: Path, now: Instant)
      reads this
    {
      workspace in workspaceCache && workspaceCache[workspace].1 > now
    }

    /**
     The workspace is asked about: not cached, not failed in this collection, within the budget, not
     freshly stored.
     */
    ghost predicate Probes(workspace: Path, t: Timing)
      reads this, persistent
    {
      !Hit(workspace, t.start) && workspace !in misses && |probes| < MAX_WORKSPACES && !StoredIsFresh(workspace, t.wall)
    }

    /** What an inspection answers. */
    ghost function Answer(workspace: Path, t: Timing): Reported
      reads this, persistent
    {
      if Hit(workspace, t.start) then workspaceCache[workspace].0
      else if workspace in misses || |probes| >= MAX_WORKSPACES then Unavailable
      else if StoredIsFresh(workspace, t.wall) then Confirmed(persistent.entries[world.key(workspace)].evidence)
      else ProbeAnswer(fingerprints, workspace, t)
    }

    /** Until when a confirmed answer is cached. */
    ghost function Expiry(workspace: Path, t: Timing): Instant
      reads this, persistent
    {
      if Hit(workspace, t.start) then workspaceCache[workspace].1
      else if StoredIsFresh(workspace, t.wall)
      then t.rehydrated + TTL - (t.wall - persistent.entries[world.key(workspace)].checkedAt)
      else t.stored + TTL
    }

    method Forget(workspace: Path)
      requires WorkspacesSound(world, slack, clock, workspaceCache)
      modifies `workspaceCache
      ensures WorkspacesSound(world, slack, clock, workspaceCache)
      ensures workspaceCache == old(workspaceCache) - {workspace}
    {
      hide WorkspaceSound;
      workspaceCache := workspaceCache - {workspace};
    }

    method Store(workspace: Path, evidence: Evidence, expires: Instant)
      requires WorkspacesSound(world, slack, clock, workspaceCache)
      requires WorkspaceSound(world, slack, clock, workspace, Confirmed(evidence), expires)
      modifies `workspaceCache
      ensures WorkspacesSound(world, slack, clock, workspaceCache)
      ensures workspaceCache == old(workspaceCache)[workspace := (Confirmed(evidence), expires)]
    {
      hide WorkspaceSound;
      workspaceCache := workspaceCache[workspace := (Confirmed(evidence), expires)];
    }

    method RememberPersistent(workspace: Path, at: Instant, evidence: Evidence)
      requires Injective(world) && EntrySound(world, slack, clock, workspace, Entry(at, evidence))
      requires persistent != null ==> EntriesSound(world, slack, clock, persistent.entries)
      modifies persistent
      ensures persistent != null ==> EntriesSound(world, slack, clock, persistent.entries)
      ensures persistent != null ==> persistent.file == old(persistent.file)
      ensures persistent != null ==>
                persistent.entries == old(persistent.entries)[world.key(workspace) := Entry(at, evidence)]
      ensures persistent != null ==> persistent.dirty && world.key(workspace) in persistent.protected
    {
      hide EntrySound;
      if persistent != null {
        persistent.Remember(world.key(workspace), at, evidence);
      }
    }

    /** Counts the workspace, asks Git, and stores an authoritative answer in both caches or a miss in neither. */
    method ProbeWorkspace(workspace: Path, t: Timing) returns (r: Reported)
      requires Valid() && Ordered(t) && clock == t.remembered && t.remembered <= t.start + slack
      requires workspace !in misses && workspace !in workspaceCache && inspected < MAX_WORKSPACES
      modifies this, persistent
      ensures Valid() && clock == old(clock) && deadline == old(deadline)
      ensures r.Confirmed? ==>
                GroundedSince(world, workspace, r.evidence, t.start - RootAge(slack), t.start - OriginAge(slack), clock)
      ensures r == old(ProbeAnswer(fingerprints, workspace, t))
      ensures fingerprints == old(FingerprintsAfterProbe(fingerprints, workspace, t))
      ensures ProbedOnce(old(probes), probes, workspace, r.Confirmed?)
      ensures old(misses) <= misses && (r.Confirmed? ==> misses == old(misses))
      ensures workspaceCache - {workspace} == old(workspaceCache) - {workspace}
      ensures r.Confirmed? <==> workspace in workspaceCache
      ensures r.Confirmed? ==> workspaceCache[workspace] == (r, t.stored + TTL)
      ensures persistent != null && r.Confirmed? ==>
                && persistent.entries
                   == old(persistent.entries)[world.key(workspace) := Entry(t.remembered, r.evidence)]
                && persistent.dirty && world.key(workspace) in persistent.protected
      ensures cacheHits == old(cacheHits)
      ensures persistent != null && r.Unavailable? ==> persistent.entries == old(persistent.entries)
      ensures persistent != null ==> persistent.file == old(persistent.file)
    {
      hide WorkspacesSound, FingerprintsSound, EntriesSound, GroundedSince, MissesAre, CommandsOf, WithinBudget,
           Injective,
           WorkspaceSound, EntrySound, RootAt, ProbedOnce, FingerprintsAfterProbe, ProbeAnswer;
      CommandsAreBounded(probes);
      inspected := inspected + 1;
      var inspection;
      ghost var ran;
      inspection, ran := InspectUncached(workspace, t);
      ghost var answered := inspection.Found? || inspection.ConfirmedAbsent?;
      ProbeIsCounted(probes, misses, Probe(workspace, ran, answered));
      OneMoreProbe(probes, Probe(workspace, ran, answered));
      probes := probes + [Probe(workspace, ran, answered)];
      if inspection.NotAvailable? || inspection.BudgetExhausted? {
        if inspection.BudgetExhausted? {
          budgetExhausted := Add64(budgetExhausted, 1);
        }
        misses := misses + {workspace};
        return Unavailable;
      }
      var evidence := if inspection.Found? then inspection.evidence else ConfirmedNonRepository;
      if inspection.ConfirmedAbsent? {
        GroundedSinceWeakens(world, workspace, evidence, t.root, t.root, clock, t.root, t.check - TTL - slack + 1,
                             clock);
      }
      ProbedIsGrounded(world, slack, clock, workspace, evidence, t);
      Store(workspace, evidence, t.stored + TTL);
      RememberPersistent(workspace, t.remembered, evidence);
      return Confirmed(evidence);
    }

    /**
     One inspection.  An answer is grounded in a root younger than one TTL and a
     remote younger than two, up to the time that inspections themselves take.
     */
    method Inspect(workspace: Path, t: Timing) returns (r: Reported)
      requires Valid() && Ordered(t) && clock <= t.start && t.remembered <= t.start + slack
      modifies this, persistent
      ensures Valid() && clock == t.remembered && deadline == old(deadline)
      ensures r.Confirmed? ==>
                GroundedSince(world, workspace, r.evidence, t.start - RootAge(slack), t.start - OriginAge(slack), clock)
      ensures r == old(Answer(workspace, t))
      ensures fingerprints == if old(Probes(workspace, t)) then old(FingerprintsAfterProbe(fingerprints, workspace, t))
                              else old(fingerprints)
      ensures if old(Probes(workspace, t)) then ProbedOnce(old(probes), probes, workspace, r.Confirmed?)
              else probes == old(probes)
      ensures old(misses) <= misses && (r.Confirmed? ==> misses == old(misses))
      ensures workspaceCache - {workspace} == old(workspaceCache) - {workspace}
      ensures r.Confirmed? <==> workspace in workspaceCache
      ensures r.Confirmed? ==> workspaceCache[workspace] == (r, old(Expiry(workspace, t)))
      ensures cacheHits == if r.Confirmed? && !old(Probes(workspace, t)) then Add64(old(cacheHits), 1)
                           else old(cacheHits)
      ensures persistent != null && r.Confirmed? && old(Probes(workspace, t)) ==>
                && persistent.entries
                   == old(persistent.entries)[world.key(workspace) := Entry(t.remembered, r.evidence)]
                && persistent.dirty && world.key(workspace) in persistent.protected
      ensures persistent != null && !old(Probes(workspace, t)) ==> persistent.entries == old(persistent.entries)
      ensures persistent != null && r.Unavailable? ==> persistent.entries == old(persistent.entries)
      ensures persistent != null ==> persistent.file == old(persistent.file)
    {
      hide WorkspacesSound, FingerprintsSound, EntriesSound, GroundedSince, WithinBudget, MissesAre, CommandsOf,
           Injective,
           FingerprintsAfterProbe, ProbeAnswer, RootAge, OriginAge, ProbedOnce;
      Advance(t.remembered);
      if workspace in workspaceCache && workspaceCache[workspace].1 > t.start {
        cacheHits := Add64(cacheHits, 1);
        CachedIsGrounded(world, slack, clock, workspaceCache, workspace, t.start);
        return workspaceCache[workspace].0;
      }
      Forget(workspace);
      if workspace in misses {
        return Unavailable;
      }
      if inspected >= MAX_WORKSPACES {
        budgetExhausted := Add64(budgetExhausted, 1);
        return Unavailable;
      }
      var stored := FreshPersistent(workspace, t.wall);
      if stored.Some? {
        cacheHits := Add64(cacheHits, 1);
        RehydratedIsGrounded(world, slack, clock, workspace, stored.value.0, stored.value.1, t);
        Store(workspace, stored.value.0, t.rehydrated + stored.value.1);
        return Confirmed(stored.value.0);
      }
      r := ProbeWorkspace(workspace, t);
    }

    /** Writes the persistent cache if it changed; the file stays sound, so a later process may start from it. */
    method PersistCompletedCollection(size: Entries -> U64, writeSucceeds: bool) returns (r: Outcome<(), PersistError>)
      requires Valid()
      modifies persistent
      ensures Valid()
      ensures persistent != null ==> FileSound(world, slack, clock, persistent.file)
      ensures persistent != null && !old(persistent.dirty) ==> r.Success? && persistent.file == old(persistent.file)
      ensures persistent != null && r.Success? ==> !persistent.dirty
      ensures persistent != null && r.Success? && old(persistent.dirty) ==>
                ReadCache(persistent.file) == Some(persistent.entries)
      ensures persistent != null && r.Failure? ==> persistent.dirty && persistent.file == old(persistent.file)
      ensures persistent != null ==>
                ProtectedPart(persistent.entries, persistent.protected)
                  == old(ProtectedPart(persistent.entries, persistent.protected))
    {
      hide WorkspacesSound, FingerprintsSound, EntriesSound, EvictsOldest, ProtectedPart, ReadCache;
      if persistent == null || !persistent.dirty {
        return Success(());
      }
      ghost var before, evicted := persistent.entries, 0;
      r, evicted := persistent.Persist(size, writeSucceeds);
      EvictionKeepsProtectedAndYoungest(before, persistent.protected, persistent.entries, evicted);
      FewerEntriesStaySound(world, slack, clock, before, persistent.entries);
      if r.Success? {
        persistent.dirty := false;
      }
    }
  }
}
