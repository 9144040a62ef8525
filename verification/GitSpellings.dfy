/**
 The spellings of one Git remote: scp-like and URL forms with or without user
 information, default port, query and fragment, and when they normalise to the
 same value (src/git_repository.rs).
 */
module GitSpellings {
  import opened Options
  import opened GitRemote
  import Text

  // ----- The spellings of one remote

  datatype Spelling =
    | Scp(user: Option<string>)
    | Url(scheme: string, user: Option<string>, withPort: bool)

  function UserText(user: Option<string>): string {
    match user
    case None => ""
    case Some(u) => u + "@"
  }

  function PortText(scheme: string, withPort: bool): string {
    if withPort && KnownScheme(scheme) then DefaultPort(scheme) else ""
  }

  function Spell(spelling: Spelling, host: string, path: string): string {
    match spelling
    case Scp(user) => UserText(user) + host + ":" + path
    case Url(scheme, user, withPort) =>
      scheme + "://" + (UserText(user) + host + PortText(Text.Lower(scheme), withPort)) + "/" + path
  }

  /** No URL delimiter, no whitespace, no control character. */
  ghost predicate Word(s: string) {
    forall i :: 0 <= i < |s| ==> s[i] !in {'/', '?', '#'} && !Text.IsWhitespace(s[i]) && !AsciiControl(s[i])
  }

  /** A host without port: a word without colons or brackets, or one in brackets. */
  ghost predicate HostText(host: string) {
    && Word(host) && '@' !in host
    && (!HasAny(host, {':', '[', ']'}) || InBrackets(host))
  }

  predicate InBrackets(host: string) {
    |host| >= 2 && host[0] == '[' && host[|host| - 1] == ']' && !HasAny(host[1..|host| - 1], {'[', ']'})
  }

  ghost predicate PathText(path: string) {
    && (forall i :: 0 <= i < |path| ==> path[i] !in {'?', '#'} && !AsciiControl(path[i]))
    && (path == [] || !Text.IsWhitespace(path[|path| - 1]))
  }

  /** User information may hold anything but delimiters; before an scp colon also no colon or bracket. */
  ghost predicate SpellingText(spelling: Spelling) {
    && (spelling.user.Some? ==> Word(spelling.user.value))
    && (spelling.Scp? && spelling.user.Some? ==> !HasAny(spelling.user.value, {':', '[', ']'}))
    && (spelling.Url? ==> KnownScheme(Text.Lower(spelling.scheme)))
  }

  /** The one value that a host and a path stand for. */
  function Canonical(host: string, path: string): Option<string> {
    Assemble(Text.Lower(host), path)
  }

  /** The scp form reads as host and path unless it looks like a drive, a URL, or has a second colon. */
  predicate ReadsAsRemote(spelling: Spelling, host: string, path: string) {
    spelling.Scp? ==>
      && !IsDriveLetter(UserText(spelling.user) + host)
      && !Text.StartsWith(path, "//")
      && ':' !in path
  }

  // ----- The authority of a spelling

  lemma HostBehindUser(user: Option<string>, rest: string)
    requires '@' !in rest
    ensures var a := UserText(user) + rest; a[BehindLast(a, '@')..] == rest
  {
    hide BehindLast;
    var a, n := UserText(user) + rest, |UserText(user)|;
    assert a[n..] == rest;
    BehindLastIsUnique(a, BehindLast(a, '@'), n);
  }

  lemma BehindLastIsUnique(a: string, r: nat, n: nat)
    requires r <= |a| && '@' !in a[r..] && (r > 0 ==> a[r - 1] == '@')
    requires n <= |a| && '@' !in a[n..] && (n > 0 ==> a[n - 1] == '@')
    ensures r == n
  {
    assert forall i :: r <= i < |a| ==> a[i] in a[r..];
    assert forall i :: n <= i < |a| ==> a[i] in a[n..];
  }

  lemma LowerConcat(a: string, b: string)
    ensures Text.Lower(a + b) == Text.Lower(a) + Text.Lower(b)
  {
  }

  lemma WordHasNoWhitespace(s: string)
    requires Word(s)
    ensures !Text.HasWhitespace(s)
  {
  }

  lemma LowerKeepsPort(scheme: string)
    requires KnownScheme(scheme)
    ensures Text.Lower(DefaultPort(scheme)) == DefaultPort(scheme)
    ensures '@' !in DefaultPort(scheme) && Word(DefaultPort(scheme))
  {
  }

  lemma HostHasNoPort(host: string, scheme: string)
    requires HostText(host) && KnownScheme(scheme)
    ensures WithoutSuffix(Text.Lower(host), DefaultPort(scheme)) == Text.Lower(host)
  {
    var lower, port := Text.Lower(host), DefaultPort(scheme);
    if |port| <= |lower| {
      var at := |lower| - |port|;
      assert lower[at..][0] == lower[at] == Text.LowerChar(host[at]);
      assert lower[at..][|port| - 1] == lower[|host| - 1] == Text.LowerChar(host[|host| - 1]);
      assert port[0] == ':' && Digit(port[|port| - 1]);
      if InBrackets(host) {
        assert lower[|host| - 1] == ']';
      } else {
        assert host[at] != ':';
      }
    }
  }

  lemma PortIsDropped(host: string, scheme: string)
    requires KnownScheme(scheme)
    ensures WithoutSuffix(Text.Lower(host + DefaultPort(scheme)), DefaultPort(scheme)) == Text.Lower(host)
  {
    LowerConcat(host, DefaultPort(scheme));
    LowerKeepsPort(scheme);
    var port := DefaultPort(scheme);
    assert (Text.Lower(host) + port)[|host|..] == port;
  }

  lemma FinishIgnoresPort(scheme: string, host: string, withPort: bool, path: string)
    requires HostText(host) && KnownScheme(scheme)
    ensures FinishHost(Some(scheme), host + PortText(scheme, withPort), path) == Canonical(host, path)
  {
    hide CleanPath, ValidPath, KnownScheme, DefaultPort, WithoutSuffix;
    LowerKeepsPort(scheme);
    if withPort {
      PortIsDropped(host, scheme);
      WordHasNoWhitespace(host + DefaultPort(scheme));
    } else {
      HostHasNoPort(host, scheme);
      WordHasNoWhitespace(host);
      assert host + "" == host;
    }
    EmptyHost(host, path);
  }

  lemma EmptyHost(host: string, path: string)
    ensures host == [] ==> Canonical(host, path) == None
  {
    if host == [] {
      assert Text.Lower(host) == "";
    }
  }

  lemma FinishWithoutScheme(host: string, path: string)
    requires HostText(host)
    ensures FinishHost(None, host, path) == Canonical(host, path)
  {
    hide CleanPath, ValidPath;
    WordHasNoWhitespace(host);
    EmptyHost(host, path);
  }

  // ----- URL spellings

  lemma UrlIsRead(spelling: Spelling, host: string, path: string)
    requires spelling.Url? && SpellingText(spelling) && HostText(host)
    ensures NormaliseBare(Spell(spelling, host, path)) == Canonical(host, path)
  {
    hide DefaultPort, Canonical, FinishHost, KnownScheme, HostText, Word, FirstOf, FirstSchemeEnd, PortText, UserText,
         BehindLast;
    var scheme, lower := spelling.scheme, Text.Lower(spelling.scheme);
    var text := host + PortText(lower, spelling.withPort);
    var authority := UserText(spelling.user) + text;
    assert UserText(spelling.user) + host + PortText(lower, spelling.withPort) == authority;
    var s := scheme + "://" + (authority + "/" + path);
    assert Spell(spelling, host, path) == s;
    SchemeEnd(scheme, authority + "/" + path);
    AuthorityHasNoSlash(spelling, host);
    UrlSplits(scheme, authority, path);
    HostBehindUser(spelling.user, text);
    FinishIgnoresPort(lower, host, spelling.withPort, path);
  }

  lemma AuthorityHasNoSlash(spelling: Spelling, host: string)
    requires spelling.Url? && SpellingText(spelling) && HostText(host)
    ensures var text := host + PortText(Text.Lower(spelling.scheme), spelling.withPort);
            '@' !in text && '/' !in UserText(spelling.user) + text
  {
    hide DefaultPort, KnownScheme;
    LowerKeepsPort(Text.Lower(spelling.scheme));
  }

  lemma UrlSplits(scheme: string, authority: string, path: string)
    requires KnownScheme(Text.Lower(scheme)) && '/' !in authority
    ensures NormaliseUrl(scheme + "://" + (authority + "/" + path), |scheme|)
              == Finish(Some(Text.Lower(scheme)), authority, path)
  {
    hide Finish, KnownScheme;
    var rest := authority + "/" + path;
    var s := scheme + "://" + rest;
    assert s[..|scheme|] == scheme && s[|scheme| + 3..] == rest;
    FirstSlash(authority, path);
    assert rest[..|authority|] == authority && rest[|authority| + 1..] == path;
  }

  lemma SchemeEnd(scheme: string, rest: string)
    requires KnownScheme(Text.Lower(scheme))
    ensures FirstSchemeEnd(scheme + "://" + rest, 0) == |scheme|
  {
    var s := scheme + "://" + rest;
    assert SchemeEndsAt(s, |scheme|);
    forall k | 0 <= k < |scheme| ensures !SchemeEndsAt(s, k) {
      assert s[k] == scheme[k];
      assert Text.Lower(scheme)[k] == Text.LowerChar(scheme[k]);
    }
  }

  lemma FirstSlash(authority: string, path: string)
    requires '/' !in authority
    ensures FirstOf(authority + "/" + path, {'/'}, 0) == |authority|
  {
    var s := authority + "/" + path;
    assert s[|authority|] == '/';
    assert forall k :: 0 <= k < |authority| ==> s[k] == authority[k];
  }

  // ----- scp spellings

  lemma {:induction false} ScpSkips(s: string, i: nat, j: nat, inBrackets: bool)
    requires i <= j <= |s|
    requires forall k :: i <= k < j ==> s[k] != '[' && s[k] != ']' && (s[k] == ':' ==> inBrackets)
    ensures ScpColon(s, i, inBrackets) == ScpColon(s, j, inBrackets)
    decreases j - i
  {
    if i < j {
      ScpSkips(s, i + 1, j, inBrackets);
    }
  }

  /** The colon behind the host is the first one outside brackets. */
  lemma ScpSplits(user: Option<string>, host: string, path: string)
    requires SpellingText(Scp(user)) && HostText(host)
    ensures SplitScp(UserText(user) + host + ":" + path) == Some((UserText(user) + host, path))
  {
    var n, m := |UserText(user)|, |host|;
    var s := UserText(user) + host + ":" + path;
    assert forall k :: 0 <= k < n ==> s[k] == UserText(user)[k];
    assert s[n..n + m] == host;
    assert s[n + m] == ':';
    assert s[..n + m] == UserText(user) + host && s[n + m + 1..] == path;
    ScpSkips(s, 0, n, false);
    ScpColonBehindHost(s, n, host);
  }

  lemma ScpColonBehindHost(s: string, n: nat, host: string)
    requires HostText(host) && n + |host| < |s|
    requires s[n..n + |host|] == host && s[n + |host|] == ':'
    ensures ScpColon(s, n, false) == Some(n + |host|)
  {
    var m := |host|;
    assert forall k :: n <= k < n + m ==> s[k] == host[k - n];
    if InBrackets(host) {
      assert forall k :: 1 <= k < m - 1 ==> host[k] == host[1..m - 1][k - 1];
      ScpSkips(s, n + 1, n + m - 1, true);
    } else {
      ScpSkips(s, n, n + m, false);
    }
  }

  lemma HeadHasNoSlash(spelling: Spelling, host: string)
    requires SpellingText(spelling) && HostText(host)
    ensures '/' !in UserText(spelling.user) + host
  {
  }

  /** The first `://` of an scp spelling is the colon behind the host, or stands in the path. */
  lemma ScpSchemeEnd(user: Option<string>, host: string, path: string)
    requires SpellingText(Scp(user)) && HostText(host)
    ensures var head := UserText(user) + host;
            var k := FirstSchemeEnd(head + ":" + path, 0);
            && k >= |head|
            && (k == |head| <==> Text.StartsWith(path, "//"))
            && (|head| < k < |head + ":" + path| ==> ':' in path)
  {
    var head := UserText(user) + host;
    var s := head + ":" + path;
    var k := FirstSchemeEnd(s, 0);
    HeadHasNoSlash(Scp(user), host);
    forall i | 0 <= i < |head| ensures !SchemeEndsAt(s, i) {
      assert s[i] == head[i];
      assert i + 1 < |head| ==> s[i + 1] == head[i + 1];
      assert s[|head|] == ':';
    }
    assert s[|head| + 1..] == path;
    assert Text.StartsWith(path, "//") <==> SchemeEndsAt(s, |head|) by {
      if |path| >= 2 {
        assert path[..2] == [path[0], path[1]];
        assert s[|head| + 1] == path[0] && s[|head| + 2] == path[1];
      }
    }
    if |head| < k < |s| {
      assert s[k] == path[k - |head| - 1];
    }
  }

  lemma ScpIsRead(user: Option<string>, host: string, path: string)
    requires SpellingText(Scp(user)) && HostText(host) && ReadsAsRemote(Scp(user), host, path)
    ensures NormaliseBare(Spell(Scp(user), host, path)) == Canonical(host, path)
  {
    hide Canonical, FinishHost, IsDriveLetter;
    ScpSplits(user, host, path);
    ScpSchemeEnd(user, host, path);
    HeadHasNoSlash(Scp(user), host);
    HostBehindUser(user, host);
    FinishWithoutScheme(host, path);
  }

  /** What does not read as a remote has no normal form, unless the text is a URL in its own right. */
  lemma ScpIsRefused(user: Option<string>, host: string, path: string)
    requires SpellingText(Scp(user)) && HostText(host) && !ReadsAsRemote(Scp(user), host, path)
    requires Text.StartsWith(path, "//") ==> !KnownScheme(Text.Lower(UserText(user) + host))
    ensures NormaliseBare(Spell(Scp(user), host, path)) == None
  {
    hide Finish, IsDriveLetter, KnownScheme, HostText, SpellingText, UserText;
    ScpSplits(user, host, path);
    ScpSchemeEnd(user, host, path);
    var head := UserText(user) + host;
    var s := head + ":" + path;
    var k := FirstSchemeEnd(s, 0);
    assert Spell(Scp(user), host, path) == s;
    if k == |head| {
      assert s[..k] == head;
    } else if k < |s| {
      assert Text.Lower(s[..k])[|head|] == ':';
      ColonIsNoScheme(Text.Lower(s[..k]));
    }
  }

  lemma ColonIsNoScheme(scheme: string)
    requires ':' in scheme
    ensures !KnownScheme(scheme)
  {
  }

  // ----- scp spellings that are URLs of another remote

  lemma {:induction false} TrailingSlashesBehind(a: string, b: string)
    requires DropTrailingSlashes(b) != []
    ensures DropTrailingSlashes(a + b) == a + DropTrailingSlashes(b)
  {
    assert (a + b)[|a + b| - 1] == b[|b| - 1];
    if b[|b| - 1] == '/' {
      assert (a + b)[..|a + b| - 1] == a + b[..|b| - 1];
      TrailingSlashesBehind(a, b[..|b| - 1]);
    }
  }

  lemma {:induction false} LeadingSlashes(s: string) returns (slashes: string)
    ensures s == slashes + DropLeadingSlashes(s)
    ensures forall i :: 0 <= i < |slashes| ==> slashes[i] == '/'
  {
    slashes := "";
    if s != [] && s[0] == '/' {
      var rest := LeadingSlashes(s[1..]);
      slashes := ['/'] + rest;
      assert s == ['/'] + s[1..];
    } else {
      assert s == "" + s;
    }
  }

  lemma WithoutGitBehind(head: string, q: string)
    requires head != [] && head[|head| - 1] == '/'
    ensures WithoutGit(head + q) == head + WithoutGit(q)
  {
    var whole, tail := Text.Lower(head + q), Text.Lower(q);
    assert whole == Text.Lower(head) + tail by { LowerConcat(head, q); }
    if |q| >= 4 {
      assert whole[|whole| - 4..] == tail[|tail| - 4..];
      assert (head + q)[..|head + q| - 4] == head + q[..|q| - 4];
    } else if |whole| >= 4 {
      var at := |head| - 1 - (|whole| - 4);
      assert whole[|whole| - 4..][at] == '/';
      assert ".git"[at] != '/';
    }
  }

  lemma NothingToClean()
    ensures WithoutGit("") == "" && DropTrailingSlashes("") == ""
  {
  }

  lemma TwoLeadingSlashes(s: string)
    requires s != [] && s[0] != '/'
    ensures DropLeadingSlashes("//" + s) == s
  {
    assert ("//" + s)[1..] == "/" + s && ("/" + s)[1..] == s;
    assert DropLeadingSlashes("/" + s) == DropLeadingSlashes(s) == s;
  }

  /** The path of the scp reading keeps the URL's whole authority. */
  lemma CleanPathBehind(authority: string, path: string)
    requires authority != [] && authority[0] != '/' && CleanPath(path) != []
    ensures |CleanPath("//" + (authority + "/" + path))| > |authority| + |CleanPath(path)|
  {
    hide WithoutGit, DropLeadingSlashes, DropTrailingSlashes;
    var slashes := LeadingSlashes(path);
    var body, head := DropLeadingSlashes(path), authority + "/" + slashes;
    var q := DropTrailingSlashes(body);
    NothingToClean();
    assert q != [];
    TwoLeadingSlashes(authority + "/" + path);
    assert authority + "/" + path == head + body;
    TrailingSlashesBehind(head, body);
    WithoutGitBehind(head, q);
    TrailingSlashesBehind(head, WithoutGit(q));
  }

  /** A remote like `ssh://x/p` is the URL of `x`; read as host `ssh` it would stand for something longer. */
  lemma UrlIsAnotherRemote(user: Option<string>, host: string, path: string)
    requires SpellingText(Scp(user)) && HostText(host) && Text.StartsWith(path, "//")
    requires KnownScheme(Text.Lower(UserText(user) + host)) && Canonical(host, path).Some?
    ensures NormaliseBare(Spell(Scp(user), host, path)) != Canonical(host, path)
  {
    hide ValidAuthority, ValidPath, KnownScheme, CleanPath, DefaultPort, Finish, SpellingText, HostText, UserText;
    var head := UserText(user) + host;
    var s, rest := head + ":" + path, path[2..];
    ScpSchemeEnd(user, host, path);
    assert Spell(Scp(user), host, path) == s;
    assert s[..|head|] == head && s[|head| + 3..] == rest;
    var j := FirstOf(rest, {'/'}, 0);
    if j < |rest| && NormaliseUrl(s, |head|).Some? {
      var authority, tail := rest[..j], rest[j + 1..];
      assert authority != [] by { FinishNeedsAuthority(Some(Text.Lower(head)), authority, tail); }
      assert authority[0] == rest[0] != '/';
      assert path == "//" + (authority + "/" + tail) by {
        assert path[..2] == "//";
        assert rest == authority + "/" + tail;
      }
      FinishLength(Some(Text.Lower(head)), authority, tail);
      CleanPathBehind(authority, tail);
    }
  }

  lemma FinishNeedsAuthority(scheme: Option<string>, authority: string, path: string)
    requires scheme.Some? ==> KnownScheme(scheme.value)
    requires Finish(scheme, authority, path).Some?
    ensures authority != []
  {
    hide ValidAuthority, ValidPath, CleanPath;
  }

  lemma FinishLength(scheme: Option<string>, authority: string, path: string)
    requires scheme.Some? ==> KnownScheme(scheme.value)
    requires Finish(scheme, authority, path).Some?
    ensures |Finish(scheme, authority, path).value| <= |authority| + 1 + |CleanPath(path)|
    ensures CleanPath(path) != []
  {
    hide ValidAuthority, CleanPath, DefaultPort;
  }

  // ----- Whitespace, query and fragment

  lemma {:induction false} TrimEndConcat(a: string, b: string)
    ensures Text.TrimEnd(a + b) == if Text.TrimEnd(b) == [] then Text.TrimEnd(a) else a + Text.TrimEnd(b)
  {
    if b == [] {
      assert a + b == a;
    } else {
      assert (a + b)[..|a + b| - 1] == a + b[..|b| - 1];
      if Text.IsWhitespace(b[|b| - 1]) {
        TrimEndConcat(a, b[..|b| - 1]);
      }
    }
  }

  lemma {:induction false} TrimStartConcat(blank: string, s: string)
    requires forall i :: 0 <= i < |blank| ==> Text.IsWhitespace(blank[i])
    requires s != [] && !Text.IsWhitespace(s[0])
    ensures Text.TrimStart(blank + s) == s
  {
    if blank == [] {
      assert blank + s == s;
    } else {
      TrimStartConcat(blank[1..], s);
      assert (blank + s)[1..] == blank[1..] + s;
    }
  }

  /** Text that the normaliser does not cut, and does not trim at the front. */
  ghost predicate Solid(s: string) {
    && s != [] && !Text.IsWhitespace(s[0])
    && forall i :: 0 <= i < |s| ==> s[i] !in {'?', '#'} && !AsciiControl(s[i])
  }

  ghost predicate SuffixText(suffix: string) {
    var t := Text.TrimEnd(suffix);
    t == [] || t[0] == '?' || t[0] == '#'
  }

  /** Surrounding blanks, a query and a fragment change nothing; only a control character in them does. */
  lemma SurroundingsIgnored(blank: string, s: string, suffix: string)
    requires forall i :: 0 <= i < |blank| ==> Text.IsWhitespace(blank[i])
    requires Solid(s) && SuffixText(suffix)
    requires Text.TrimEnd(suffix) == [] ==> !Text.IsWhitespace(s[|s| - 1])
    ensures Normalise(blank + s + suffix)
         == if HasAsciiControl(Text.TrimEnd(suffix)) then None else NormaliseBare(s)
  {
    hide NormaliseBare;
    var t := Text.TrimEnd(suffix);
    assert blank + s + suffix == blank + (s + suffix);
    TrimStartConcat(blank, s + suffix);
    TrimEndConcat(s, suffix);
    assert t == [] ==> Text.TrimEnd(s) == s;
    var trimmed := s + t;
    assert Text.Trim(blank + s + suffix) == trimmed by {
      assert t == [] ==> s + t == s;
    }
    ControlOfConcat(s, t);
    CutOfConcat(s, t);
    assert trimmed[..|s|] == s;
  }

  lemma ControlOfConcat(s: string, t: string)
    requires Solid(s)
    ensures HasAsciiControl(s + t) <==> HasAsciiControl(t)
  {
    var st := s + t;
    if i :| 0 <= i < |t| && AsciiControl(t[i]) {
      assert st[|s| + i] == t[i];
    }
    if i :| 0 <= i < |st| && AsciiControl(st[i]) {
      assert forall k :: 0 <= k < |s| ==> st[k] == s[k];
      assert i >= |s|;
      assert st[i] == t[i - |s|];
    }
  }

  lemma CutOfConcat(s: string, t: string)
    requires Solid(s) && (t == [] || t[0] == '?' || t[0] == '#')
    ensures FirstOf(s + t, {'?', '#'}, 0) == |s|
  {
    var st := s + t;
    assert forall k :: 0 <= k < |s| ==> st[k] == s[k];
    if t != [] {
      assert st[|s|] == t[0];
    }
  }

  lemma SpellingIsSolid(spelling: Spelling, host: string, path: string)
    requires SpellingText(spelling) && HostText(host) && PathText(path)
    ensures var s := Spell(spelling, host, path); Solid(s) && !Text.IsWhitespace(s[|s| - 1])
  {
    hide DefaultPort;
    var head := UserText(spelling.user) + host;
    assert Word(head);
    if spelling.Url? {
      var scheme := spelling.scheme;
      LowerKeepsPort(Text.Lower(scheme));
      SchemeIsWord(scheme);
      var authority := head + PortText(Text.Lower(scheme), spelling.withPort);
      assert Word(authority);
      SolidPieces(scheme + "://" + authority + "/", path);
      assert Spell(spelling, host, path) == scheme + "://" + authority + "/" + path;
    } else {
      SolidPieces(head + ":", path);
    }
  }

  lemma SchemeIsWord(scheme: string)
    requires KnownScheme(Text.Lower(scheme))
    ensures scheme != [] && Word(scheme)
  {
    forall i | 0 <= i < |scheme| ensures AsciiAlpha(scheme[i]) {
      assert Text.Lower(scheme)[i] == Text.LowerChar(scheme[i]);
    }
  }

  lemma SolidPieces(head: string, path: string)
    requires Solid(head) && !Text.IsWhitespace(head[|head| - 1]) && PathText(path)
    ensures Solid(head + path) && !Text.IsWhitespace((head + path)[|head + path| - 1])
  {
  }

  // ----- The main results

  /**
   Every spelling of a host and a path normalises to the one value they stand for,
   whatever the user information, default port, case of the scheme, surrounding
   blanks, query and fragment.
   */
  lemma SpellingsAgree(spelling: Spelling, host: string, path: string, blank: string, suffix: string)
    requires SpellingText(spelling) && HostText(host) && PathText(path)
    requires forall i :: 0 <= i < |blank| ==> Text.IsWhitespace(blank[i])
    requires SuffixText(suffix) && !HasAsciiControl(Text.TrimEnd(suffix))
    requires ReadsAsRemote(spelling, host, path)
    ensures Normalise(blank + Spell(spelling, host, path) + suffix) == Canonical(host, path)
  {
    hide *;
    SpellingIsSolid(spelling, host, path);
    SurroundingsIgnored(blank, Spell(spelling, host, path), suffix);
    match spelling
    case Scp(user) => ScpIsRead(user, host, path);
    case Url(_, _, _) => UrlIsRead(spelling, host, path);
  }

  /** The two conditions of the agreement are exact. */
  lemma SpellingsAgreeExactly(spelling: Spelling, host: string, path: string, blank: string, suffix: string)
    requires SpellingText(spelling) && HostText(host) && PathText(path)
    requires forall i :: 0 <= i < |blank| ==> Text.IsWhitespace(blank[i])
    requires SuffixText(suffix)
    requires Canonical(host, path).Some?
    ensures Normalise(blank + Spell(spelling, host, path) + suffix) == Canonical(host, path)
       <==> ReadsAsRemote(spelling, host, path) && !HasAsciiControl(Text.TrimEnd(suffix))
  {
    hide Normalise, Canonical, NormaliseBare, Spell;
    SpellingIsSolid(spelling, host, path);
    SurroundingsIgnored(blank, Spell(spelling, host, path), suffix);
    match spelling
    case Scp(user) =>
      if ReadsAsRemote(spelling, host, path) {
        ScpIsRead(user, host, path);
      } else if Text.StartsWith(path, "//") && KnownScheme(Text.Lower(UserText(user) + host)) {
        UrlIsAnotherRemote(user, host, path);
      } else {
        ScpIsRefused(user, host, path);
      }
    case Url(_, _, _) => UrlIsRead(spelling, host, path);
  }

  /**
   A blank at the end of a path is trimmed when nothing follows (`SpellingsAgree`
   with a blank suffix), but in front of a query it spoils every spelling.
   */
  lemma BlankBeforeQueryIsRefused(spelling: Spelling, host: string, path: string, blank: char, suffix: string)
    requires SpellingText(spelling) && HostText(host) && ReadsAsRemote(spelling, host, path + [blank])
    requires PathText(path) && Text.IsWhitespace(blank) && !AsciiControl(blank)
    requires SuffixText(suffix) && Text.TrimEnd(suffix) != []
    ensures Normalise(Spell(spelling, host, path + [blank]) + suffix) == None
  {
    hide *;
    var longer := path + [blank];
    var s := Spell(spelling, host, longer);
    SolidWithBlank(spelling, host, path, blank);
    SurroundingsIgnored("", s, suffix);
    assert "" + s + suffix == s + suffix;
    match spelling {
      case Scp(user) => ScpIsRead(user, host, longer);
      case Url(_, _, _) => UrlIsRead(spelling, host, longer);
    }
    BlankPathIsInvalid(Text.Lower(host), path, blank);
    CanonicalIsAssembled(host, longer);
  }

  lemma SolidWithBlank(spelling: Spelling, host: string, path: string, blank: char)
    requires SpellingText(spelling) && HostText(host) && PathText(path) && Text.IsWhitespace(blank)
    requires !AsciiControl(blank)
    ensures Solid(Spell(spelling, host, path + [blank]))
  {
    hide Spell, SpellingText, HostText, PathText;
    SpellingIsSolid(spelling, host, path);
    SpellExtends(spelling, host, path, blank);
  }

  lemma CanonicalIsAssembled(host: string, path: string)
    ensures Canonical(host, path) == Assemble(Text.Lower(host), path)
  {
    hide Assemble;
  }

  lemma SpellExtends(spelling: Spelling, host: string, path: string, c: char)
    ensures Spell(spelling, host, path + [c]) == Spell(spelling, host, path) + [c]
  {
    match spelling
    case Scp(user) =>
      var head := UserText(user) + host + ":";
      assert head + (path + [c]) == head + path + [c];
    case Url(scheme, user, withPort) =>
      var head := scheme + "://" + (UserText(user) + host + PortText(Text.Lower(scheme), withPort)) + "/";
      assert head + (path + [c]) == head + path + [c];
  }

  lemma BlankPathIsInvalid(authority: string, path: string, blank: char)
    requires Text.IsWhitespace(blank)
    ensures Assemble(authority, path + [blank]) == None
  {
    hide ValidAuthority;
    LeadingSlashesKeepEnd(path, blank);
    var trimmed := DropLeadingSlashes(path + [blank]);
    assert trimmed[|trimmed| - 1] == blank != '/';
    assert Text.Lower(trimmed)[|trimmed| - 1] == blank;
    assert !EndsWith(Text.Lower(trimmed), ".git");
    assert CleanPath(path + [blank]) == trimmed;
    assert Text.HasWhitespace(trimmed);
  }

  lemma {:induction false} LeadingSlashesKeepEnd(path: string, c: char)
    requires c != '/'
    ensures var r := DropLeadingSlashes(path + [c]); r != [] && r[|r| - 1] == c
  {
    if path != [] && path[0] == '/' {
      LeadingSlashesKeepEnd(path[1..], c);
      assert (path + [c])[1..] == path[1..] + [c];
    }
  }

  // ----- Stability

  lemma {:induction false} SplitEnds(path: string)
    requires path != []
    ensures path[0] == '/' ==> Text.Split(path, '/')[0] == ""
    ensures path[|path| - 1] == '/' ==> Text.Split(path, '/')[|Text.Split(path, '/')| - 1] == ""
  {
    if path[0] == '/' {
      assert path == "" + "/" + path[1..];
      Text.SplitConcat("", path[1..], '/');
      assert Text.Split("", '/') == [""];
    }
    if path[|path| - 1] == '/' {
      assert path == path[..|path| - 1] + "/" + "";
      Text.SplitConcat(path[..|path| - 1], "", '/');
      assert Text.Split("", '/') == [""];
    }
  }

  /** A normal form spelled again gives itself exactly when its path does not end in another `.git`. */
  lemma NormalFormIsStable(host: string, path: string)
    requires ValidAuthority(Text.Lower(host)) && ValidPath(path)
    ensures Canonical(host, path) == Some(Text.Lower(host) + "/" + path) <==> !EndsWith(Text.Lower(path), ".git")
  {
    hide ValidAuthority;
    SplitEnds(path);
    assert path[0] != '/' && path[|path| - 1] != '/';
    assert DropTrailingSlashes(DropLeadingSlashes(path)) == path;
    if EndsWith(Text.Lower(path), ".git") {
      ShorterPath(path[..|path| - 4]);
      assert |CleanPath(path)| < |path|;
      var host := Text.Lower(host);
      assert |host + "/" + CleanPath(path)| < |host + "/" + path|;
    }
  }

  lemma {:induction false} ShorterPath(s: string)
    ensures |DropTrailingSlashes(s)| <= |s|
  {
    if s != [] && s[|s| - 1] == '/' {
      ShorterPath(s[..|s| - 1]);
    }
  }

  // ----- Spellings of the path

  predicate Slashes(s: string) {
    forall i :: 0 <= i < |s| ==> s[i] == '/'
  }

  lemma {:induction false} SlashesInFront(slashes: string, s: string)
    requires Slashes(slashes) && s != [] && s[0] != '/'
    ensures DropLeadingSlashes(slashes + s) == s
  {
    if slashes == [] {
      assert slashes + s == s;
    } else {
      SlashesInFront(slashes[1..], s);
      assert (slashes + s)[1..] == slashes[1..] + s;
    }
  }

  lemma {:induction false} SlashesBehind(s: string, slashes: string)
    requires Slashes(slashes) && s != [] && s[|s| - 1] != '/'
    ensures DropTrailingSlashes(s + slashes) == s
  {
    if slashes == [] {
      assert s + slashes == s;
    } else {
      SlashesBehind(s, slashes[..|slashes| - 1]);
      assert (s + slashes)[..|s + slashes| - 1] == s + slashes[..|slashes| - 1];
    }
  }

  /** Slashes around a path and one `.git` at its end, in any case, change nothing. */
  lemma PathSpellingsAgree(host: string, path: string, before: string, git: string, after: string)
    requires path != [] && path[0] != '/' && path[|path| - 1] != '/' && !EndsWith(Text.Lower(path), ".git")
    requires Slashes(before) && Slashes(after) && (git == "" || Text.Lower(git) == ".git")
    ensures Canonical(host, before + path + git + after) == Canonical(host, path)
  {
    hide ValidAuthority, ValidPath, CleanPath;
    PathIsCleaned(path, before, git, after);
    PathIsCleaned(path, "", "", "");
    assert "" + path + "" + "" == path;
  }

  lemma PathIsCleaned(path: string, before: string, git: string, after: string)
    requires path != [] && path[0] != '/' && path[|path| - 1] != '/' && !EndsWith(Text.Lower(path), ".git")
    requires Slashes(before) && Slashes(after) && (git == "" || Text.Lower(git) == ".git")
    ensures CleanPath(before + path + git + after) == path
  {
    hide Slashes, DropLeadingSlashes, DropTrailingSlashes;
    var middle := path + git;
    if git != "" {
      GitHasNoSlash(git);
    }
    assert before + path + git + after == before + (middle + after);
    SlashesInFront(before, middle + after);
    SlashesBehind(middle, after);
    NoSlashes();
    SlashesBehind(path, "");
    assert path + "" == path;
    LowerConcat(path, git);
    if git != "" {
      var lower := Text.Lower(middle);
      assert lower[|lower| - 4..] == ".git";
      assert middle[..|middle| - 4] == path;
    }
  }

  lemma NoSlashes()
    ensures Slashes("")
  {
  }

  lemma GitHasNoSlash(git: string)
    requires Text.Lower(git) == ".git"
    ensures |git| == 4 && git[3] != '/'
  {
    assert |Text.Lower(git)| == |git|;
    assert Text.Lower(git)[3] == Text.LowerChar(git[3]) == 't';
  }

  // ----- Spellings that do not agree

  lemma DriveLetterIsRefused()
    ensures ReadsAsRemote(Scp(Some("git")), "h", "p") && !ReadsAsRemote(Scp(None), "h", "p")
    ensures Canonical("h", "p") == Some("h/p") && NormaliseBare(Spell(Scp(None), "h", "p")) == None
  {
    hide ValidAuthority, ValidPath;
    NameIsValid("h");
    WordIsValidPath("p");
    NormalFormIsStable("h", "p");
    assert Text.Lower("h") == "h" && Text.Lower("p") == "p";
    ScpIsRefused(None, "h", "p");
    assert UserText(None) + "h" == "h";
    assert "h" + "/" + "p" == "h/p";
  }

  lemma NameIsValid(host: string)
    requires host != [] && forall i :: 0 <= i < |host| ==> 'a' <= host[i] <= 'z'
    ensures ValidAuthority(Text.Lower(host))
  {
    assert Text.Lower(host) == host == host + "";
    assert AuthorityGrammar(host, host, "");
    ValidAuthorityIsHostAndPort(host);
  }

  lemma WordIsValidPath(path: string)
    requires path != [] && forall i :: 0 <= i < |path| ==> 'a' <= path[i] <= 'z'
    ensures ValidPath(path)
  {
    Text.SplitWithoutSeparator(path, '/');
  }
}
