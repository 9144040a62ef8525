/**
 From the configured remote to the fingerprint (src/git_repository.rs): repositories whose
 remotes are spellings of one host and path get one and the same fingerprint, and what
 every other answer of Git means.
 */
module GitFingerprints {
  import opened Time
  import opened Options
  import opened GitCache
  import opened GitResolver
  import opened GitRemote
  import opened GitSpellings
  import Text

  // ----- The line that Git prints

  predicate OneLine(s: string) {
    '\n' !in s && '\r' !in s && '\0' !in s
  }

  predicate LineEnd(end: string) {
    end == "" || end == "\n" || end == "\r\n" || end == "\r"
  }

  lemma EndsWithChar(s: string, c: char)
    ensures EndsWith(s, [c]) <==> s != [] && s[|s| - 1] == c
    ensures WithoutSuffix(s, [c]) == if s != [] && s[|s| - 1] == c then s[..|s| - 1] else s
  {
    if s != [] {
      assert s[|s| - 1..] == [s[|s| - 1]];
    }
  }

  lemma LastIn(s: string)
    requires s != []
    ensures s[|s| - 1] in s
  {
  }

  lemma StripsLineEnd(line: string, end: string)
    requires line != [] && OneLine(line) && LineEnd(end)
    ensures WithoutSuffix(WithoutSuffix(line + end, "\n"), "\r") == line
  {
    hide OneLine, WithoutSuffix, EndsWith;
    var text := line + end;
    EndsWithChar(text, '\n');
    EndsWithChar(WithoutSuffix(text, "\n"), '\r');
    EndsWithChar(line, '\n');
    EndsWithChar(line, '\r');
    assert line[|line| - 1] != '\n' && line[|line| - 1] != '\r' by { LineEndsInText(line); }
    if end == "\r\n" {
      assert text[..|text| - 1] == line + "\r";
      assert (line + "\r")[..|line|] == line;
    } else if end != "" {
      assert text[..|text| - 1] == line;
    } else {
      assert text == line;
    }
  }

  lemma LineEndsInText(line: string)
    requires line != [] && OneLine(line)
    ensures line[|line| - 1] != '\n' && line[|line| - 1] != '\r'
  {
    LastIn(line);
  }

  /** Exactly the texts of one line are read, with or without their line end. */
  lemma SingleLineExactly(text: string, line: string)
    ensures SingleLine(text) == Some(line)
       <==> line != [] && OneLine(line) && exists end :: LineEnd(end) && text == line + end
  {
    hide WithoutSuffix, EndsWith;
    if SingleLine(text) == Some(line) {
      EndsWithChar(text, '\n');
      EndsWithChar(WithoutSuffix(text, "\n"), '\r');
      LineIsPrefix(text, line);
    }
    if end :| line != [] && OneLine(line) && LineEnd(end) && text == line + end {
      StripsLineEnd(line, end);
    }
  }

  lemma LineIsPrefix(text: string, line: string)
    requires line == WithoutSuffix(WithoutSuffix(text, "\n"), "\r")
    ensures exists end :: LineEnd(end) && text == line + end
  {
    hide EndsWith, WithoutSuffix;
    EndsWithChar(text, '\n');
    var once := WithoutSuffix(text, "\n");
    EndsWithChar(once, '\r');
    var last := if once == text then "" else "\n";
    assert text == once + last;
    var end := (if line == once then "" else "\r") + last;
    assert once == line + if line == once then "" else "\r";
    assert LineEnd(end) && text == line + end;
  }

  // ----- Remotes that are spellings of one host and path

  /** The fingerprint of what a host and a path stand for; none if they stand for nothing. */
  function FingerprintOf(world: World, host: string, path: string): Option<string> {
    match Canonical(host, path)
    case None => None
    case Some(remote) => world.hash(remote)
  }

  /** The line is a spelling of the host and path that reads as a remote, with blanks, query and fragment around it. */
  ghost predicate Spelled(line: string, spelling: Spelling, host: string, path: string, blank: string,
                          suffix: string) {
    && line == blank + Spell(spelling, host, path) + suffix
    && SpellingText(spelling) && HostText(host) && PathText(path) && ReadsAsRemote(spelling, host, path)
    && (forall i :: 0 <= i < |blank| ==> Text.IsWhitespace(blank[i]))
    && SuffixText(suffix) && !HasAsciiControl(Text.TrimEnd(suffix))
  }

  ghost predicate Prints(text: string, line: string, end: string, spelling: Spelling, host: string, path: string,
                         blank: string, suffix: string) {
    text == line + end && OneLine(line) && LineEnd(end) && Spelled(line, spelling, host, path, blank, suffix)
  }

  /** At that moment the repository's remote is some spelling of the host and path. */
  ghost predicate Names(world: World, repository: Path, t: Instant, host: string, path: string) {
    && world.origin(repository, t).Output?
    && exists line, end, spelling, blank, suffix ::
         Prints(world.origin(repository, t).text, line, end, spelling, host, path, blank, suffix)
  }

  lemma SpelledNormalises(line: string, spelling: Spelling, host: string, path: string, blank: string, suffix: string)
    requires Spelled(line, spelling, host, path, blank, suffix)
    ensures line != [] && Normalise(line) == Canonical(host, path)
  {
    hide Normalise, Canonical, Spell, SpellingText, HostText, PathText, ReadsAsRemote, HasAsciiControl, SuffixText;
    SpellingsAgree(spelling, host, path, blank, suffix);
    SpellingIsSolid(spelling, host, path);
  }

  /** Whatever the spelling, the answer is the fingerprint of the host and path, or a confirmed absence. */
  lemma OriginOfSpelling(world: World, repository: Path, t: Instant, host: string, path: string)
    requires Names(world, repository, t, host, path)
    ensures OriginAt(world, repository, t) == Some(FingerprintOf(world, host, path))
  {
    hide Normalise, Canonical, Spelled, OneLine, LineEnd, SingleLine;
    var text := world.origin(repository, t).text;
    var line, end, spelling, blank, suffix :| Prints(text, line, end, spelling, host, path, blank, suffix);
    SpelledNormalises(line, spelling, host, path, blank, suffix);
    SingleLineExactly(text, line);
  }

  lemma NoColonIsNoRemote(remote: string)
    requires ':' !in remote
    ensures Normalise(remote) == None
  {
    var trimmed := Text.Trim(remote);
    TrimIsPart(remote);
    var s := trimmed[..FirstOf(trimmed, {'?', '#'}, 0)];
    assert forall i :: 0 <= i < |s| ==> s[i] == trimmed[i];
    assert forall i :: 0 <= i < |s| ==> s[i] != ':';
    assert FirstSchemeEnd(s, 0) == |s|;
    assert ScpColon(s, 0, false) == None;
  }

  lemma TrimIsPart(s: string)
    ensures forall c :: c in Text.Trim(s) ==> c in s
  {
    hide Text.IsWhitespace;
    TrimStartIsPart(s);
    TrimEndIsPart(Text.TrimStart(s));
  }

  lemma {:induction false} TrimStartIsPart(s: string)
    ensures forall c :: c in Text.TrimStart(s) ==> c in s
  {
    hide Text.IsWhitespace;
    if s != [] {
      TrimStartIsPart(s[1..]);
    }
  }

  lemma {:induction false} TrimEndIsPart(s: string)
    ensures forall c :: c in Text.TrimEnd(s) ==> c in s
  {
    hide Text.IsWhitespace;
    if s != [] {
      TrimEndIsPart(s[..|s| - 1]);
    }
  }

  /** A remote without a colon, such as a local path, is a confirmed absence of a fingerprint. */
  lemma LocalPathHasNoFingerprint(world: World, repository: Path, t: Instant)
    requires world.origin(repository, t).Output? && ':' !in world.origin(repository, t).text
    ensures OriginAt(world, repository, t) == Some(None)
  {
    hide Normalise, SingleLine;
    var text := world.origin(repository, t).text;
    var line := SingleLine(text);
    if line.Some? {
      SingleLineExactly(text, line.value);
      var end :| LineEnd(end) && text == line.value + end;
      assert forall c :: c in line.value ==> c in text;
      NoColonIsNoRemote(line.value);
    }
  }

  // ----- Evidence

  /** Whenever the workspace lies in a repository, its remote is a spelling of the host and path. */
  ghost predicate PointsAt(world: World, workspace: Path, host: string, path: string, since: Instant, now: Instant) {
    forall rootAt, originAt :: RootAt(world, workspace, rootAt).Inside? && since <= originAt <= now ==>
                                 Names(world, RootAt(world, workspace, rootAt).repository, originAt, host, path)
  }

  /** What an inspection confirms about such a workspace has the fingerprint of the host and path. */
  lemma EvidenceNamesRemote(world: World, workspace: Path, evidence: Evidence, rootAfter: Instant,
                            originAfter: Instant, now: Instant, host: string, path: string)
    requires GroundedSince(world, workspace, evidence, rootAfter, originAfter, now)
    requires PointsAt(world, workspace, host, path, originAfter, now)
    requires evidence.Repository?
    ensures evidence.fingerprint == FingerprintOf(world, host, path)
  {
    hide RootAt, OriginAt, Names, FingerprintOf;
    var rootAt, originAt :| Grounded(world, workspace, evidence, rootAt, originAt)
                            && rootAfter <= rootAt <= now && originAfter <= originAt <= now;
    OriginOfSpelling(world, RootAt(world, workspace, rootAt).repository, originAt, host, path);
  }

  /** Two workspaces whose remotes are spellings of one host and path get the same fingerprint. */
  lemma SameRemoteSameFingerprint(world: World, slack: nat, a: Path, inA: Evidence, startA: Instant, nowA: Instant,
                                  b: Path, inB: Evidence, startB: Instant, nowB: Instant, host: string, path: string)
    requires GroundedSince(world, a, inA, startA - RootAge(slack), startA - OriginAge(slack), nowA)
    requires GroundedSince(world, b, inB, startB - RootAge(slack), startB - OriginAge(slack), nowB)
    requires PointsAt(world, a, host, path, startA - OriginAge(slack), nowA)
    requires PointsAt(world, b, host, path, startB - OriginAge(slack), nowB)
    requires inA.Repository? && inB.Repository?
    ensures inA.fingerprint == inB.fingerprint == FingerprintOf(world, host, path)
  {
    hide GroundedSince, PointsAt, FingerprintOf, RootAge, OriginAge;
    EvidenceNamesRemote(world, a, inA, startA - RootAge(slack), startA - OriginAge(slack), nowA, host, path);
    EvidenceNamesRemote(world, b, inB, startB - RootAge(slack), startB - OriginAge(slack), nowB, host, path);
  }

  /** The probe asks for the remote: within the budget, and no answer about the repository is remembered. */
  predicate AsksForRemote(r: Resolver, cache: map<Path, (Option<string>, Instant)>, workspace: Path, t: Timing)
    reads r`deadline
  {
    && workspace.absolute && t.rootBudget < r.deadline && t.originBudget < r.deadline
    && RootAt(r.world, workspace, t.root).Inside?
    && var repository := RootAt(r.world, workspace, t.root).repository;
    (repository !in cache || cache[repository].1 <= t.check)
  }

  /** Such a probe by what Git answers: a spelling, no such key (exit code 1), or no answer at all. */
  lemma ProbeByAnswer(r: Resolver, cache: map<Path, (Option<string>, Instant)>, workspace: Path, t: Timing,
                      host: string, path: string)
    requires AsksForRemote(r, cache, workspace, t)
    ensures
      var inside := RootAt(r.world, workspace, t.root);
      var origin := r.world.origin(inside.repository, t.origin);
      var answer := r.ProbeAnswer(cache, workspace, t);
      && (Names(r.world, inside.repository, t.origin, host, path) ==>
            answer == Confirmed(Repository(FingerprintOf(r.world, host, path), inside.relative)))
      && (origin.Exited? && origin.code == 1 ==> answer == Confirmed(Repository(None, inside.relative)))
      && (origin.Exited? && origin.code != 1 ==> answer == Unavailable)
      && (origin.NotCompleted? ==> answer == Unavailable)
      && (origin.Output? && ':' !in origin.text ==> answer == Confirmed(Repository(None, inside.relative)))
  {
    hide RootAt, Names, FingerprintOf, SingleLine, Normalise;
    var repository := RootAt(r.world, workspace, t.root).repository;
    if Names(r.world, repository, t.origin, host, path) {
      OriginOfSpelling(r.world, repository, t.origin, host, path);
    }
    var origin := r.world.origin(repository, t.origin);
    if origin.Output? && ':' !in origin.text {
      LocalPathHasNoFingerprint(r.world, repository, t.origin);
    }
  }

  // ----- Roots

  /** Going down from the repository by the relative root leads to the workspace. */
  ghost predicate LeadsTo(repository: Path, relative: string, workspace: Path) {
    && repository.absolute == workspace.absolute
    && (|| (relative == "." && repository.components == workspace.components)
        || (&& |repository.components| < |workspace.components|
            && repository.components + Text.Split(relative, '/') == workspace.components))
  }

  lemma RelativeRootLeads(repository: seq<string>, workspace: seq<string>)
    requires forall i :: 0 <= i < |workspace| ==> '/' !in workspace[i]
    requires RelativeRoot(repository, workspace).Some?
    ensures LeadsTo(Path(true, repository), RelativeRoot(repository, workspace).value, Path(true, workspace))
  {
    if |repository| == |workspace| {
      assert repository == workspace;
    } else {
      var parts := workspace[|repository|..];
      Text.SplitUndoesJoin(parts, '/');
      assert repository + parts == workspace;
    }
  }

  /**
   What the root probe tells: inside a repository exactly if Git printed one line that is the
   path of an ancestor, outside exactly if Git refused and no marker was found, else nothing.
   */
  lemma RootByAnswer(world: World, workspace: Path, t: Instant)
    requires forall i :: 0 <= i < |workspace.components| ==> '/' !in workspace.components[i]
    ensures
      var toplevel, answer := world.toplevel(workspace, t), RootAt(world, workspace, t);
      && (answer.Outside? <==> toplevel.Exited? && world.unmarked(workspace, t))
      && (answer.Inside? ==>
            && toplevel.Output? && LeadsTo(answer.repository, answer.relative, workspace)
            && exists line, end :: && toplevel.text == line + end && OneLine(line) && LineEnd(end)
                                   && world.canonical(line, t) == Some(answer.repository))
      && (toplevel.NotCompleted? ==> answer.NoAnswer?)
  {
    hide SingleLine, RelativeRoot, LeadsTo, OneLine, LineEnd;
    var toplevel, answer := world.toplevel(workspace, t), RootAt(world, workspace, t);
    if answer.Inside? {
      var line := SingleLine(toplevel.text).value;
      SingleLineExactly(toplevel.text, line);
      RelativeRootLeads(answer.repository.components, workspace.components);
      LeadsEitherWay(answer.repository, answer.relative, workspace);
    }
  }

  lemma LeadsEitherWay(repository: Path, relative: string, workspace: Path)
    requires repository.absolute == workspace.absolute
    requires LeadsTo(Path(true, repository.components), relative, Path(true, workspace.components))
    ensures LeadsTo(repository, relative, workspace)
  {
  }

  /** The probe finds every ancestor that Git names, unless a component below it cannot be written down. */
  lemma AncestorIsFound(world: World, workspace: Path, t: Instant, line: string, end: string, repository: Path)
    requires world.toplevel(workspace, t) == Output(line + end) && line != [] && OneLine(line) && LineEnd(end)
    requires world.canonical(line, t) == Some(repository)
    requires repository.absolute == workspace.absolute && repository.components <= workspace.components
    requires forall i :: |repository.components| <= i < |workspace.components| ==>
                           ValidComponent(workspace.components[i])
    ensures RootAt(world, workspace, t).Inside? && RootAt(world, workspace, t).repository == repository
  {
    hide SingleLine, OneLine, LineEnd, ValidComponent;
    SingleLineExactly(line + end, line);
  }

  // ----- Ports

  /** The port that needs no mention. */
  predicate IsDefault(scheme: string, digits: string) {
    || (scheme == "ssh" && digits == "22") || (scheme == "git" && digits == "9418")
    || (scheme == "http" && digits == "80") || (scheme == "https" && digits == "443")
  }

  lemma PortSuffix(host: string, digits: string, scheme: string)
    requires KnownScheme(scheme) && Digits(digits)
    ensures WithoutSuffix(host + ":" + digits, DefaultPort(scheme))
         == if IsDefault(scheme, digits) then host else host + ":" + digits
  {
    var text, port := host + ":" + digits, DefaultPort(scheme);
    assert text[|host|..] == ":" + digits;
    if |port| == |digits| + 1 {
      assert (":" + digits)[1..] == digits;
      assert port == ":" + port[1..];
      assert port == ":" + digits <==> port[1..] == digits;
      assert text[..|host|] == host;
    } else if |port| < |digits| + 1 {
      assert text[|text| - |port|] == digits[|digits| - |port|];
      assert text[|text| - |port|..][0] == digits[|digits| - |port|] != ':';
    } else if |port| <= |text| {
      var at := |port| - |digits| - 1;
      assert text[|text| - |port|..][at] == text[|host|] == ':';
    }
  }

  lemma LowerOfPort(host: string, digits: string)
    requires Digits(digits)
    ensures Text.Lower(host + ":" + digits) == Text.Lower(host) + ":" + digits
  {
  }

  lemma FinishWithPort(scheme: string, host: string, digits: string, path: string)
    requires KnownScheme(scheme) && HostText(host) && Digits(digits)
    ensures FinishHost(Some(scheme), host + ":" + digits, path)
         == Assemble(Text.Lower(host) + if IsDefault(scheme, digits) then "" else ":" + digits, path)
  {
    hide Assemble, DefaultPort, KnownScheme, WithoutSuffix, IsDefault, Digits, HostText, Text.HasWhitespace, Text.Lower;
    AuthorityIsWord(host, digits);
    LowerOfPort(host, digits);
    PortSuffix(Text.Lower(host), digits, scheme);
    assert Text.Lower(host) + "" == Text.Lower(host);
    assert Text.Lower(host) + ":" + digits == Text.Lower(host) + (":" + digits);
  }

  /** A URL with a port: only the default of its own scheme is left out. */
  lemma PortOfUrl(scheme: string, host: string, digits: string, path: string)
    requires KnownScheme(Text.Lower(scheme)) && HostText(host) && Digits(digits)
    ensures NormaliseBare(scheme + "://" + (host + ":" + digits + "/" + path))
         == Assemble(Text.Lower(host) + if IsDefault(Text.Lower(scheme), digits) then "" else ":" + digits, path)
  {
    hide Assemble, FinishHost, KnownScheme, FirstSchemeEnd, BehindLast, IsDefault, Digits, HostText, Text.Lower;
    var authority := host + ":" + digits;
    AuthorityIsWord(host, digits);
    SchemeEnd(scheme, authority + "/" + path);
    UrlSplits(scheme, authority, path);
    HostBehindUser(None, authority);
    assert UserText(None) + authority == authority;
    FinishWithPort(Text.Lower(scheme), host, digits, path);
  }

  lemma AuthorityIsWord(host: string, digits: string)
    requires HostText(host) && Digits(digits)
    ensures var a := host + ":" + digits; '@' !in a && '/' !in a && !Text.HasWhitespace(a)
  {
  }
}
