/**
 How old cached Git evidence can really get: runs of the resolver that attain both
 age bounds of `GitResolver.Resolver.Inspect` whenever an inspection takes time.
 */
module GitStaleness {
  import opened Time
  import opened Options
  import opened GitCache
  import opened GitResolver
  import GitRemote

  // ----- A collision-free key

  function Marked(s: string): string {
    if s == [] then "y" else ['x', s[0]] + Marked(s[1..])
  }

  function MarkedAll(parts: seq<string>): string {
    if parts == [] then "" else Marked(parts[0]) + MarkedAll(parts[1..])
  }

  function KeyOf(p: Path): string {
    (if p.absolute then "a" else "r") + MarkedAll(p.components)
  }

  lemma {:induction false} MarkedIsPrefixFree(s: string, u: string, t: string, v: string)
    requires Marked(s) + u == Marked(t) + v
    ensures s == t && u == v
  {
    var a, b := Marked(s) + u, Marked(t) + v;
    assert a[0] == Marked(s)[0] && b[0] == Marked(t)[0];
    if s == [] {
      assert a[1..] == u && b[1..] == v;
    } else {
      assert a[1] == Marked(s)[1] == s[0] && b[1] == Marked(t)[1] == t[0];
      assert a[2..] == Marked(s[1..]) + u && b[2..] == Marked(t[1..]) + v;
      MarkedIsPrefixFree(s[1..], u, t[1..], v);
      assert s == [s[0]] + s[1..] && t == [t[0]] + t[1..];
    }
  }

  lemma {:induction false} MarkedAllIsInjective(a: seq<string>, b: seq<string>)
    requires MarkedAll(a) == MarkedAll(b)
    ensures a == b
  {
    NotEmpty(a);
    NotEmpty(b);
    if a != [] {
      MarkedIsPrefixFree(a[0], MarkedAll(a[1..]), b[0], MarkedAll(b[1..]));
      MarkedAllIsInjective(a[1..], b[1..]);
      assert a == [a[0]] + a[1..] && b == [b[0]] + b[1..];
    }
  }

  lemma NotEmpty(parts: seq<string>)
    ensures MarkedAll(parts) == "" <==> parts == []
  {
    if parts != [] {
      assert Marked(parts[0]) != "";
    }
  }

  lemma KeyIsInjective(a: Path, b: Path)
    requires KeyOf(a) == KeyOf(b)
    ensures a == b
  {
    assert KeyOf(a)[0] == KeyOf(b)[0];
    assert KeyOf(a)[1..] == MarkedAll(a.components) && KeyOf(b)[1..] == MarkedAll(b.components);
    MarkedAllIsInjective(a.components, b.components);
  }

  // ----- The oldest root

  /** Git answers once, at time 0: this is no repository. */
  function OnceOutside(): World {
    World((p, t) => if t == 0 then Exited(128) else NotCompleted, (p, t) => NotCompleted, (s, t) => None,
          (p, t) => true, s => None, p => KeyOf(p))
  }

  lemma OnceOutsideFacts(workspace: Path)
    ensures Injective(OnceOutside())
    ensures forall t :: RootAt(OnceOutside(), workspace, t).Outside? <==> t == 0
    ensures forall rootAt, originAt ::
              Grounded(OnceOutside(), workspace, ConfirmedNonRepository, rootAt, originAt) <==> rootAt == 0
  {
    forall a, b | OnceOutside().key(a) == OnceOutside().key(b) ensures a == b {
      KeyIsInjective(a, b);
    }
  }

  /** All clock reads of an inspection; from `rehydrated` on they may be later than its start. */
  function Reads(start: Instant, later: Instant): Timing {
    Timing(start, start, later, later, later, later, later, later, later, later, later)
  }

  /**
   Two inspections.  The first finds a stored entry just before its TTL is over and
   caches it `slack` later; the second hits the cache just before it expires.
   */
  method Stretch(resolver: Resolver, workspace: Path, checkedAt: Instant, slack: nat)
    returns (r: Reported, now: Instant)
    requires resolver.Valid() && slack == resolver.slack && resolver.clock <= checkedAt + TTL - 1
    requires resolver.persistent != null && resolver.world.key(workspace) in resolver.persistent.entries
    requires resolver.persistent.entries[resolver.world.key(workspace)].checkedAt == checkedAt
    requires workspace !in resolver.misses && |resolver.probes| < MAX_WORKSPACES
    requires workspace in resolver.workspaceCache ==> resolver.workspaceCache[workspace].1 <= checkedAt + TTL - 1
    modifies resolver, resolver.persistent
    ensures r == Confirmed(old(resolver.persistent.entries)[resolver.world.key(workspace)].evidence)
    ensures now == checkedAt + TTL - 1 + slack
  {
    hide GroundedSince, Resolver.CachesSound, Resolver.CountersExact, Injective, ProbedOnce;
    var found := checkedAt + TTL - 1;
    r := resolver.Inspect(workspace, Reads(found, found + slack));
    now := found + slack;
    r := resolver.Inspect(workspace, Reads(now, now));
  }

  /** Git is asked at time 0 and the answer stored `slack` later; then it is stretched. */
  method OldestRoot(slack: nat) returns (r: Reported, workspace: Path, now: Instant)
    requires slack >= 1
    ensures r.Confirmed? && now == RootAge(slack) >= TTL
    ensures forall rootAt, originAt :: Grounded(OnceOutside(), workspace, r.evidence, rootAt, originAt) <==> rootAt == 0
  {
    workspace := Path(true, []);
    OnceOutsideFacts(workspace);
    hide GroundedSince, RootAt, OnceOutside, Injective, Resolver.CachesSound, Resolver.CountersExact, Grounded;
    var resolver := new Resolver(OnceOutside(), slack, None, true, 0);
    r := resolver.Inspect(workspace, Reads(0, 0).(remembered := slack));
    assert r == Confirmed(ConfirmedNonRepository);
    r, now := Stretch(resolver, workspace, slack, slack);
  }

  // ----- The oldest remote

  /** Every directory belongs to the repository at the root; its remote is known to be absent at time 0 only. */
  function OnceAsked(): World {
    World((p, t) => Output("r"), (p, t) => if t == 0 then Exited(1) else NotCompleted, (s, t) => Some(Path(true, [])),
          (p, t) => false, s => None, p => KeyOf(p))
  }

  function Top(): Path {
    Path(true, [])
  }

  function Below(): Path {
    Path(true, ["a"])
  }

  lemma OnceAskedIsInjective()
    ensures Injective(OnceAsked()) && OnceAsked().key(Top()) != OnceAsked().key(Below())
    ensures Top().absolute && Below().absolute && Top() != Below()
  {
    hide KeyOf;
    forall a, b | OnceAsked().key(a) == OnceAsked().key(b) ensures a == b {
      KeyIsInjective(a, b);
    }
  }

  lemma OneLetterLine()
    ensures SingleLine("r") == Some("r")
  {
    assert "r"[0..] == "r" && "r"[0] != "\n"[0] && "r"[0] != "\r"[0];
    assert GitRemote.WithoutSuffix("r", "\n") == "r" && GitRemote.WithoutSuffix("r", "\r") == "r";
  }

  lemma OnceAskedRoots(t: Instant)
    ensures RootAt(OnceAsked(), Top(), t) == Inside(Top(), ".")
    ensures RootAt(OnceAsked(), Below(), t).Inside? && RootAt(OnceAsked(), Below(), t).repository == Top()
  {
    hide SingleLine, KeyOf;
    OneLetterLine();
    assert ValidComponent(Below().components[0]);
  }

  lemma OnceAskedFacts()
    ensures forall t :: RootAt(OnceAsked(), Top(), t) == Inside(Top(), ".")
    ensures forall t :: RootAt(OnceAsked(), Below(), t).Inside? && RootAt(OnceAsked(), Below(), t).repository == Top()
    ensures forall t :: OriginAt(OnceAsked(), Top(), t) == if t == 0 then Some(None) else None
  {
    hide RootAt;
    forall t
      ensures RootAt(OnceAsked(), Top(), t) == Inside(Top(), ".")
      ensures RootAt(OnceAsked(), Below(), t).Inside? && RootAt(OnceAsked(), Below(), t).repository == Top()
    {
      OnceAskedRoots(t);
    }
  }

  lemma OnceAskedGrounds(evidence: Evidence)
    requires evidence.Repository?
    ensures forall rootAt, originAt ::
              Grounded(OnceAsked(), Below(), evidence, rootAt, originAt) ==> originAt == 0
  {
    hide RootAt, OriginAt;
    OnceAskedFacts();
  }

  function FirstReads(slack: nat): Timing {
    Reads(0, 0).(discovered := slack, stored := slack, remembered := slack)
  }

  lemma LearnedFingerprint(resolver: Resolver, slack: nat)
    requires resolver.world == OnceAsked() && resolver.deadline > 0
    ensures resolver.FingerprintsAfterProbe(map[], Top(), FirstReads(slack)) == map[Top() := (None, slack + TTL)]
  {
    hide OnceAsked, RootAt, OriginAt;
    OnceAskedFacts();
    var empty: map<Path, (Option<string>, Instant)> := map[];
    assert empty - {Top()} == empty;
  }

  /** A process that asked for the remote at time 0 and remembers the answer from `slack` on. */
  method LearnRemote(slack: nat) returns (resolver: Resolver)
    ensures fresh(resolver) && resolver.persistent != null && fresh(resolver.persistent)
    ensures resolver.Valid() && resolver.world == OnceAsked() && resolver.slack == slack && resolver.clock == slack
    ensures resolver.fingerprints == map[Top() := (None, slack + TTL)] && Below() !in resolver.workspaceCache
    ensures OnceAsked().key(Below()) !in resolver.persistent.entries
  {
    OnceAskedFacts();
    OnceAskedIsInjective();
    hide GroundedSince, RootAt, OriginAt, OnceAsked, Top, Below, Injective, Resolver.CachesSound,
         Resolver.CountersExact, Grounded, ProbedOnce, Resolver.FingerprintsAfterProbe;
    resolver := new Resolver(OnceAsked(), slack, None, true, 0);
    LearnedFingerprint(resolver, slack);
    var _ := resolver.Inspect(Top(), FirstReads(slack));
    assert Below() !in resolver.workspaceCache - {Top()};
  }

  /**
   The remote is learned at time 0.  An inspection in another directory takes it from the
   cache just before its TTL is over and stores it with the directory `slack` later; then
   that entry is stretched.
   */
  method OldestRemote(slack: nat) returns (r: Reported, now: Instant)
    requires slack >= 1
    ensures r.Confirmed? && r.evidence.Repository? && now == OriginAge(slack) >= 2 * TTL
    ensures forall rootAt, originAt :: Grounded(OnceAsked(), Below(), r.evidence, rootAt, originAt) ==> originAt == 0
  {
    OnceAskedFacts();
    OnceAskedIsInjective();
    hide GroundedSince, RootAt, OriginAt, OnceAsked, Top, Below, Injective, Resolver.CachesSound,
         Resolver.CountersExact, Grounded;
    var resolver := LearnRemote(slack);
    var second := TTL + slack - 1;
    resolver.BeginCollection(second);
    r := resolver.Inspect(Below(), Reads(second, second).(remembered := second + slack));
    assert r.Confirmed? && r.evidence.Repository?;
    r, now := Stretch(resolver, Below(), second + slack, slack);
    OnceAskedGrounds(r.evidence);
  }
}
