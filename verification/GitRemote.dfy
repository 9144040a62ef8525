/**
 The Git remote normaliser (src/git_repository.rs): the spellings of one remote
 that people configure, and the single `host/path` form they are compared by.
 */
module GitRemote {
  import opened Options
  import Text

  // ----- Searching

  /** The first index from `i` on whose character is in `chars`, or the length. */
  function FirstOf(s: string, chars: set<char>, i: nat): (r: nat)
    requires i <= |s|
    ensures i <= r <= |s|
    ensures forall k :: i <= k < r ==> s[k] !in chars
    ensures r < |s| ==> s[r] in chars
    decreases |s| - i
  {
    if i == |s| || s[i] in chars then i else FirstOf(s, chars, i + 1)
  }

  /** The index behind the last `c`, or 0. */
  function BehindLast(s: string, c: char): (r: nat)
    ensures r <= |s|
    ensures c !in s[r..]
    ensures r > 0 ==> s[r - 1] == c
  {
    if s == [] then 0
    else if s[|s| - 1] == c then |s|
    else
      var r := BehindLast(s[..|s| - 1], c);
      assert s[r..] == s[..|s| - 1][r..] + [s[|s| - 1]];
      r
  }

  predicate SchemeEndsAt(s: string, i: nat) {
    i + 3 <= |s| && s[i] == ':' && s[i + 1] == '/' && s[i + 2] == '/'
  }

  /** The first index from `i` on where `://` stands, or the length. */
  function FirstSchemeEnd(s: string, i: nat): (r: nat)
    requires i <= |s|
    ensures i <= r <= |s|
    ensures forall k :: i <= k < r ==> !SchemeEndsAt(s, k)
    ensures r < |s| ==> SchemeEndsAt(s, r)
    decreases |s| - i
  {
    if i == |s| || SchemeEndsAt(s, i) then i else FirstSchemeEnd(s, i + 1)
  }

  predicate HasAny(s: string, chars: set<char>) {
    exists i :: 0 <= i < |s| && s[i] in chars
  }

  predicate AsciiControl(c: char) {
    (c as int) < 0x20 || c as int == 0x7F
  }

  predicate HasAsciiControl(s: string) {
    exists i :: 0 <= i < |s| && AsciiControl(s[i])
  }

  function DropLeadingSlashes(s: string): string {
    if s != [] && s[0] == '/' then DropLeadingSlashes(s[1..]) else s
  }

  function DropTrailingSlashes(s: string): string {
    if s != [] && s[|s| - 1] == '/' then DropTrailingSlashes(s[..|s| - 1]) else s
  }

  // ----- The scp form

  /** The index of the colon that ends the authority: the first one outside brackets. */
  function ScpColon(s: string, i: nat, inBrackets: bool): (r: Option<nat>)
    requires i <= |s|
    ensures r.Some? ==> i <= r.value < |s| && s[r.value] == ':'
    decreases |s| - i
  {
    if i == |s| then None
    else if s[i] == '[' then (if inBrackets then None else ScpColon(s, i + 1, true))
    else if s[i] == ']' then (if inBrackets then ScpColon(s, i + 1, false) else None)
    else if s[i] == ':' && !inBrackets then Some(i)
    else ScpColon(s, i + 1, inBrackets)
  }

  function SplitScp(s: string): Option<(string, string)> {
    match ScpColon(s, 0, false)
    case None => None
    case Some(k) => Some((s[..k], s[k + 1..]))
  }

  // ----- The authority

  predicate AsciiAlpha(c: char) {
    'a' <= c <= 'z' || 'A' <= c <= 'Z'
  }

  predicate Digit(c: char) {
    '0' <= c <= '9'
  }

  predicate Digits(s: string) {
    s != [] && forall i :: 0 <= i < |s| ==> Digit(s[i])
  }

  predicate AuthorityChar(c: char) {
    AsciiAlpha(c) || Digit(c) || c in ".-:[]"
  }

  predicate ValidAuthority(a: string) {
    && a != []
    && (forall i :: 0 <= i < |a| ==> AuthorityChar(a[i]))
    && if a[0] == '[' then
         var rest := a[1..];
         var k := FirstOf(rest, {']'}, 0);
         k < |rest| && ValidBracketed(rest[..k], rest[k + 1..])
       else
         !HasAny(a, {'[', ']'}) && ValidPlain(a)
  }

  predicate ValidBracketed(address: string, suffix: string) {
    && address != [] && !HasAny(address, {'[', ']'}) && !HasAny(suffix, {'[', ']'})
    && (suffix == [] || (suffix[0] == ':' && Digits(suffix[1..])))
  }

  predicate ValidPlain(a: string) {
    var k := FirstOf(a, {':'}, 0);
    k == |a| || (a[..k] != [] && Digits(a[k + 1..]) && ':' !in a[k + 1..])
  }

  // ----- Normalising

  predicate KnownScheme(scheme: string) {
    scheme == "ssh" || scheme == "git" || scheme == "http" || scheme == "https"
  }

  function DefaultPort(scheme: string): string
    requires KnownScheme(scheme)
  {
    if scheme == "ssh" then ":22" else if scheme == "https" then ":443" else if scheme == "http" then ":80" else ":9418"
  }

  predicate EndsWith(s: string, suffix: string) {
    |suffix| <= |s| && s[|s| - |suffix|..] == suffix
  }

  function WithoutSuffix(s: string, suffix: string): string {
    if EndsWith(s, suffix) then s[..|s| - |suffix|] else s
  }

  function CleanPath(path: string): string {
    DropTrailingSlashes(WithoutGit(DropTrailingSlashes(DropLeadingSlashes(path))))
  }

  /** The path without a final `.git` in any case. */
  function WithoutGit(path: string): string {
    if EndsWith(Text.Lower(path), ".git") then path[..|path| - 4] else path
  }

  predicate ValidPath(path: string) {
    path != [] && !Text.HasWhitespace(path) && ValidParts(Text.Split(path, '/'))
  }

  predicate ValidParts(parts: seq<string>) {
    forall i :: 0 <= i < |parts| ==> parts[i] != "" && parts[i] != "." && parts[i] != ".."
  }

  /** What is left to check once the authority is lower case and without its default port. */
  function Assemble(authority: string, path: string): Option<string> {
    if ValidAuthority(authority) && ValidPath(CleanPath(path)) then
      Some(authority + "/" + CleanPath(path))
    else
      None
  }

  function Finish(scheme: Option<string>, authority: string, path: string): Option<string>
    requires scheme.Some? ==> KnownScheme(scheme.value)
  {
    FinishHost(scheme, authority[BehindLast(authority, '@')..], path)
  }

  function FinishHost(scheme: Option<string>, host: string, path: string): Option<string>
    requires scheme.Some? ==> KnownScheme(scheme.value)
  {
    if host == [] || Text.HasWhitespace(host) then
      None
    else
      var lower := Text.Lower(host);
      Assemble(if scheme.Some? then WithoutSuffix(lower, DefaultPort(scheme.value)) else lower, path)
  }

  /** A URL: `k` is where its `://` stands. */
  function NormaliseUrl(s: string, k: nat): Option<string>
    requires k + 3 <= |s|
  {
    var scheme, rest := Text.Lower(s[..k]), s[k + 3..];
    var j := FirstOf(rest, {'/'}, 0);
    if !KnownScheme(scheme) || j == |rest| then None else Finish(Some(scheme), rest[..j], rest[j + 1..])
  }

  function NormaliseScp(s: string): Option<string> {
    match SplitScp(s)
    case None => None
    case Some((authority, path)) =>
      if '/' in authority || IsDriveLetter(authority) || ':' in path then None else Finish(None, authority, path)
  }

  predicate IsDriveLetter(authority: string) {
    |authority| == 1 && AsciiAlpha(authority[0])
  }

  /** `normalized_git_remote`. */
  function Normalise(remote: string): Option<string> {
    var trimmed := Text.Trim(remote);
    if trimmed == [] || HasAsciiControl(trimmed) then
      None
    else
      NormaliseBare(trimmed[..FirstOf(trimmed, {'?', '#'}, 0)])
  }

  function NormaliseBare(s: string): Option<string> {
    var k := FirstSchemeEnd(s, 0);
    if k < |s| then NormaliseUrl(s, k) else NormaliseScp(s)
  }

  // ----- Every result is canonical

  predicate NoUpperCase(s: string) {
    forall i :: 0 <= i < |s| ==> !('A' <= s[i] <= 'Z')
  }

  ghost predicate CanonicalPair(r: string, authority: string, path: string) {
    && r == authority + "/" + path
    && IsHostAndPort(authority) && NoUpperCase(authority)
    && IsCleanPath(path)
  }

  ghost predicate IsHostAndPort(authority: string) {
    exists host, port :: AuthorityGrammar(authority, host, port)
  }

  /** No blanks, no empty component, and none that is `.` or `..`. */
  ghost predicate IsCleanPath(path: string) {
    && (forall i :: 0 <= i < |path| ==> !Text.IsWhitespace(path[i]))
    && (forall part :: part in Text.Split(path, '/') ==> part != "" && part != "." && part != "..")
  }

  lemma ValidIsClean(path: string)
    requires ValidPath(path)
    ensures IsCleanPath(path)
  {
    hide Text.IsWhitespace, Text.Split;
    var parts := Text.Split(path, '/');
    forall part | part in parts ensures part != "" && part != "." && part != ".." {
      var i :| 0 <= i < |parts| && parts[i] == part;
    }
  }

  /** A lower-case authority without a slash, then a path without empty, `.` or `..` components. */
  ghost predicate CanonicalResult(r: string) {
    exists authority, path :: CanonicalPair(r, authority, path)
  }

  lemma LowerHasNoUpperCase(s: string)
    ensures NoUpperCase(Text.Lower(s))
  {
  }

  lemma FinishIsCanonical(scheme: Option<string>, authority: string, path: string)
    requires scheme.Some? ==> KnownScheme(scheme.value)
    requires Finish(scheme, authority, path).Some?
    ensures CanonicalResult(Finish(scheme, authority, path).value)
  {
    hide ValidAuthority, ValidPath, CleanPath, DefaultPort, KnownScheme, AuthorityGrammar, IsCleanPath;
    var lower := Text.Lower(authority[BehindLast(authority, '@')..]);
    LowerHasNoUpperCase(authority[BehindLast(authority, '@')..]);
    var kept := if scheme.Some? then WithoutSuffix(lower, DefaultPort(scheme.value)) else lower;
    assert NoUpperCase(kept);
    ValidAuthorityIsHostAndPort(kept);
    ValidIsClean(CleanPath(path));
    assert CanonicalPair(kept + "/" + CleanPath(path), kept, CleanPath(path));
  }

  /** Whatever was configured, a result is in the canonical form. */
  lemma ResultIsCanonical(remote: string)
    requires Normalise(remote).Some?
    ensures CanonicalResult(Normalise(remote).value)
  {
    hide Finish, CanonicalResult, KnownScheme;
    var trimmed := Text.Trim(remote);
    var s := trimmed[..FirstOf(trimmed, {'?', '#'}, 0)];
    var k := FirstSchemeEnd(s, 0);
    if k < |s| {
      var scheme, rest := Text.Lower(s[..k]), s[k + 3..];
      var j := FirstOf(rest, {'/'}, 0);
      FinishIsCanonical(Some(scheme), rest[..j], rest[j + 1..]);
    } else {
      FinishIsCanonical(None, SplitScp(s).value.0, SplitScp(s).value.1);
    }
  }

  // ----- The authority as a grammar

  predicate NameChar(c: char) {
    AsciiAlpha(c) || Digit(c) || c == '.' || c == '-'
  }

  /** A name, or an address in brackets (section 3.2.2 of RFC 3986, without percent encoding). */
  ghost predicate HostGrammar(host: string) {
    || (host != [] && forall i :: 0 <= i < |host| ==> NameChar(host[i]))
    || (&& |host| >= 3 && host[0] == '[' && host[|host| - 1] == ']'
        && forall i :: 1 <= i < |host| - 1 ==> NameChar(host[i]) || host[i] == ':')
  }

  ghost predicate PortGrammar(port: string) {
    port == [] || (port[0] == ':' && Digits(port[1..]))
  }

  ghost predicate AuthorityGrammar(a: string, host: string, port: string) {
    a == host + port && HostGrammar(host) && PortGrammar(port)
  }

  lemma ValidAuthorityIsHostAndPort(a: string)
    ensures ValidAuthority(a) <==> exists host, port :: AuthorityGrammar(a, host, port)
  {
    if ValidAuthority(a) {
      AuthoritySplits(a);
    }
    if host, port :| AuthorityGrammar(a, host, port) {
      if host[0] == '[' {
        BracketedIsValid(a, host, port);
      } else {
        PlainIsValid(a, host, port);
      }
    }
  }

  lemma AuthoritySplits(a: string)
    requires ValidAuthority(a)
    ensures exists host, port :: AuthorityGrammar(a, host, port)
  {
    if a[0] == '[' {
      var rest := a[1..];
      var k := FirstOf(rest, {']'}, 0);
      var host, port := a[..k + 2], a[k + 2..];
      assert port == rest[k + 1..];
      forall i | 1 <= i < |host| - 1 ensures NameChar(host[i]) || host[i] == ':' {
        assert AuthorityChar(a[i]);
        assert rest[..k][i - 1] == a[i];
      }
      assert AuthorityGrammar(a, host, port);
    } else {
      var k := FirstOf(a, {':'}, 0);
      var host, port := a[..k], a[k..];
      forall i | 0 <= i < |host| ensures NameChar(host[i]) {
        assert AuthorityChar(a[i]);
      }
      if k < |a| {
        assert port[1..] == a[k + 1..];
      }
      assert AuthorityGrammar(a, host, port);
    }
  }

  lemma PortChars(port: string)
    requires PortGrammar(port)
    ensures forall i :: 0 <= i < |port| ==> AuthorityChar(port[i]) && port[i] !in {'[', ']'}
    ensures forall i :: 1 <= i < |port| ==> Digit(port[i])
  {
    if port != [] {
      forall i | 1 <= i < |port| ensures Digit(port[i]) {
        assert port[i] == port[1..][i - 1];
      }
    }
  }

  lemma BracketedIsValid(a: string, host: string, port: string)
    requires AuthorityGrammar(a, host, port) && host[0] == '['
    ensures ValidAuthority(a)
  {
    PortChars(port);
    var rest := a[1..];
    var k := FirstOf(rest, {']'}, 0);
    assert rest[|host| - 2] == ']';
    assert forall i :: 0 <= i < |host| - 2 ==> rest[i] == host[i + 1];
    assert k == |host| - 2;
    assert rest[k + 1..] == port;
    assert rest[..k] == host[1..|host| - 1];
  }

  lemma PlainIsValid(a: string, host: string, port: string)
    requires AuthorityGrammar(a, host, port) && host[0] != '['
    ensures ValidAuthority(a)
  {
    PortChars(port);
    var k := FirstOf(a, {':'}, 0);
    assert forall i :: 0 <= i < |host| ==> a[i] == host[i] && a[i] != ':';
    if port == [] {
      assert k == |a|;
    } else {
      assert a[|host|] == ':';
      assert k == |host|;
      assert a[k + 1..] == port[1..];
    }
  }
}
