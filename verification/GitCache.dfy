/**
 The persistent Git evidence cache (src/git_repository.rs): entries keyed by a
 hashed workspace path, trimmed to an entry and a byte bound before they are
 written.  The length of the JSON encoding is an arbitrary function of the
 entries; writing and reading back are otherwise faithful.
 */
module GitCache {
  import opened Time
  import opened Options
  import opened Saturating
  import Ordering
  import Text

  const MAX_BYTES: U64 := 16 * 1024 * 1024
  const MAX_ENTRIES: nat := 32_768
  const MAX_ROOT_BYTES: nat := 2 * 1024
  const FORMAT_VERSION: nat := 1
  const KEY_PREFIX: string := "cwd-sha256-v1-"

  datatype Evidence = ConfirmedNonRepository | Repository(fingerprint: Option<string>, relativeRoot: string)
  datatype Entry = Entry(checkedAt: Instant, evidence: Evidence)
  type Entries = map<string, Entry>

  /** What a cache file decodes to, and its length. */
  datatype CacheFile = CacheFile(bytes: nat, version: nat, entries: Entries)

  datatype PersistError = TooManyProtected | InvalidEntries | ProtectedTooLarge | WriteFailed

  // ----- Validity

  predicate ValidComponent(part: string) {
    part != "" && part != "." && part != ".."
  }

  predicate ValidRoot(root: string) {
    || root == "."
    || (&& root != "" && Text.ByteLength(root) <= MAX_ROOT_BYTES
        && root[0] != '/' && '\\' !in root && !Text.HasControl(root)
        && forall i :: 0 <= i < |Text.Split(root, '/')| ==> ValidComponent(Text.Split(root, '/')[i]))
  }

  predicate HexDigit(c: char) {
    '0' <= c <= '9' || 'a' <= c <= 'f'
  }

  predicate ValidKey(key: string) {
    && Text.StartsWith(key, KEY_PREFIX)
    && |key| == |KEY_PREFIX| + 64
    && forall i :: |KEY_PREFIX| <= i < |key| ==> HexDigit(key[i])
  }

  predicate ValidEvidence(evidence: Evidence) {
    evidence.Repository? ==> ValidRoot(evidence.relativeRoot)
  }

  predicate ValidEntries(version: nat, entries: Entries) {
    && version == FORMAT_VERSION
    && |entries| <= MAX_ENTRIES
    && AllValid(entries)
  }

  predicate AllValid(entries: Entries) {
    forall key :: key in entries ==> ValidKey(key) && ValidEvidence(entries[key].evidence)
  }

  /** Reading back: a missing file is an empty cache, a file over a bound or with a bad entry is refused. */
  function ReadCache(file: Option<CacheFile>): (r: Option<Entries>)
    ensures r.Some? ==> ValidEntries(FORMAT_VERSION, r.value)
    ensures file.None? ==> r == Some(map[])
    ensures file.Some? && r.Some? ==> r.value == file.value.entries
    ensures file.Some? ==> (r.Some? <==> && file.value.bytes <= 16_777_216 && file.value.version == 1
                                         && |file.value.entries| <= 32_768 && AllValid(file.value.entries))
  {
    match file
    case None => Some(map[])
    case Some(f) =>
      if f.bytes > MAX_BYTES || !ValidEntries(f.version, f.entries) then None else Some(f.entries)
  }

  // ----- The roots that a probe produces

  /** The workspace's components below the repository root, `.` for the root itself. */
  function RelativeRoot(repository: seq<string>, workspace: seq<string>): Option<string> {
    if !(repository <= workspace) then
      None
    else if |repository| == |workspace| then
      Some(".")
    else if exists i :: |repository| <= i < |workspace| && !ValidComponent(workspace[i]) then
      None
    else
      Some(Text.Join(workspace[|repository|..], '/'))
  }

  /** A probe's root can be stored exactly when it has no backslash, no control character and is short enough. */
  lemma RelativeRootStorable(repository: seq<string>, workspace: seq<string>)
    requires forall i :: 0 <= i < |workspace| ==> '/' !in workspace[i]
    requires RelativeRoot(repository, workspace).Some?
    ensures var root := RelativeRoot(repository, workspace).value;
            ValidRoot(root) <==>
              '\\' !in root && !Text.HasControl(root) && Text.ByteLength(root) <= MAX_ROOT_BYTES
  {
    var root := RelativeRoot(repository, workspace).value;
    if |repository| == |workspace| {
      assert !Text.HasControl(".");
      assert Text.ByteLength(".") == 1 by {
        assert "."[..0] == "";
      }
    } else {
      var parts := workspace[|repository|..];
      Text.SplitUndoesJoin(parts, '/');
      JoinStart(parts);
    }
  }

  lemma {:induction false} JoinStart(parts: seq<string>)
    requires parts != [] && parts[0] != "" && '/' !in parts[0]
    ensures Text.Join(parts, '/') != "" && Text.Join(parts, '/')[0] == parts[0][0] != '/'
  {
    if |parts| > 1 {
      JoinStart(parts[..|parts| - 1]);
    }
  }

  /** A directory name with a backslash gives evidence that the cache refuses to store. */
  lemma BackslashIsNotStorable()
    ensures var root := RelativeRoot(["r"], ["r", "a\\b"]);
            root.Some? && !ValidRoot(root.value)
  {
    var workspace := ["r", "a\\b"];
    assert workspace[1..] == ["a\\b"];
    assert ValidComponent(workspace[1]);
    assert "a\\b"[1] == '\\';
  }

  // ----- Eviction order

  predicate OldLe(a: (Instant, string), b: (Instant, string)) {
    a.0 < b.0 || (a.0 == b.0 && Ordering.StringLe(a.1, b.1))
  }

  lemma OldLeIsTotalPreorder()
    ensures Ordering.TotalPreorder(OldLe)
  {
    hide Ordering.StringLe;
    Ordering.StringLeIsTotalPreorder();
  }

  function Stamp(entries: Entries, key: string): (Instant, string) {
    (if key in entries then entries[key].checkedAt else 0, key)
  }

  /** The unprotected keys, each once, oldest check first and equal times by key. */
  ghost predicate OldestFirst(entries: Entries, protected: set<string>, order: seq<string>) {
    && Ordering.Distinct(order)
    && (forall key :: key in order <==> key in entries && key !in protected)
    && forall i, j :: 0 <= i < j < |order| ==> OldLe(Stamp(entries, order[i]), Stamp(entries, order[j]))
  }

  /** There is one such order. */
  lemma {:induction false} OldestFirstIsUnique(entries: Entries, protected: set<string>, a: seq<string>, b: seq<string>)
    requires OldestFirst(entries, protected, a) && OldestFirst(entries, protected, b)
    ensures a == b
    decreases |a|
  {
    hide Ordering.StringLe;
    if a == [] {
      assert forall key :: key in b ==> key in a;
      FirstIsMember(b);
    } else {
      assert a[0] in b;
      assert b != [] && b[0] in a;
      var x, y := Stamp(entries, a[0]), Stamp(entries, b[0]);
      assert OldLe(x, x) && OldLe(y, y) by {
        OldLeIsTotalPreorder();
      }
      assert OldLe(x, y) && OldLe(y, x);
      Ordering.StringLeAntisymmetric(a[0], b[0]);
      var more := protected + {a[0]};
      RestIsOldestFirst(entries, protected, a);
      RestIsOldestFirst(entries, protected, b);
      OldestFirstIsUnique(entries, more, a[1..], b[1..]);
      assert a == [a[0]] + a[1..] && b == [b[0]] + b[1..];
    }
  }

  lemma FirstIsMember(s: seq<string>)
    ensures s == [] || s[0] in s
  {
  }

  lemma RestIsOldestFirst(entries: Entries, protected: set<string>, a: seq<string>)
    requires OldestFirst(entries, protected, a) && a != []
    ensures OldestFirst(entries, protected + {a[0]}, a[1..])
  {
    hide OldLe;
    forall key ensures key in a[1..] <==> key in entries && key !in protected + {a[0]} {
      if key in a[1..] {
        var i :| 0 <= i < |a[1..]| && a[1..][i] == key;
        assert a[0] != a[i + 1];
      }
      assert key in a <==> key == a[0] || key in a[1..];
    }
  }

  ghost function Drop(entries: Entries, keys: seq<string>): Entries {
    map key | key in entries && key !in keys :: entries[key]
  }

  /** `after` is `before` without the first `n` keys of the eviction order. */
  ghost predicate EvictsOldest(before: Entries, protected: set<string>, after: Entries, n: nat) {
    exists order :: OldestFirst(before, protected, order) && n <= |order| && after == Drop(before, order[..n])
  }

  /** After evicting the `n` oldest, the order of the remaining keys is the rest of the first order. */
  lemma OrderAfterEviction(entries: Entries, protected: set<string>, order: seq<string>, n: nat)
    requires OldestFirst(entries, protected, order) && n <= |order|
    ensures OldestFirst(Drop(entries, order[..n]), protected, order[n..])
  {
    hide OldLe;
    var rest := Drop(entries, order[..n]);
    forall key ensures key in order[n..] <==> key in rest && key !in protected {
      if key in order[n..] {
        var i :| 0 <= i < |order[n..]| && order[n..][i] == key;
        assert order[n + i] == key;
        assert key !in order[..n];
      }
      assert key in order <==> key in order[..n] || key in order[n..];
    }
    forall i | 0 <= i < |order[n..]| ensures Stamp(rest, order[n..][i]) == Stamp(entries, order[n + i]) {
      assert order[n..][i] in order[n..];
    }
  }

  /** Two evictions in a row evict one prefix of the first order. */
  lemma EvictionsCompose(first: Entries, protected: set<string>, second: Entries, third: Entries, n: nat, m: nat)
    requires EvictsOldest(first, protected, second, n) && EvictsOldest(second, protected, third, m)
    ensures EvictsOldest(first, protected, third, n + m)
  {
    var order :| OldestFirst(first, protected, order) && n <= |order| && second == Drop(first, order[..n]);
    var rest :| OldestFirst(second, protected, rest) && m <= |rest| && third == Drop(second, rest[..m]);
    OrderAfterEviction(first, protected, order, n);
    OldestFirstIsUnique(second, protected, rest, order[n..]);
    assert order[..n + m] == order[..n] + order[n..][..m];
    assert third == Drop(first, order[..n + m]);
  }

  ghost function ProtectedPart(entries: Entries, protected: set<string>): Entries {
    map key | key in entries && key in protected :: entries[key]
  }

  /** Checked earlier, or at the same moment and not behind it in the order of keys. */
  ghost predicate NotYounger(entries: Entries, a: string, b: string)
    requires a in entries && b in entries
  {
    || entries[a].checkedAt < entries[b].checkedAt
    || (entries[a].checkedAt == entries[b].checkedAt && Ordering.Lexicographic(a, b))
  }

  lemma OrderIsAge(entries: Entries, a: string, b: string)
    requires a in entries && b in entries
    ensures OldLe(Stamp(entries, a), Stamp(entries, b)) <==> NotYounger(entries, a, b)
  {
    hide Ordering.StringLe, Ordering.Lexicographic;
    Ordering.StringLeIsLexicographic(a, b);
  }

  /** What any eviction keeps: every protected entry, and no evicted entry is younger than a kept one. */
  lemma EvictionKeepsProtectedAndYoungest(before: Entries, protected: set<string>, after: Entries, n: nat)
    requires EvictsOldest(before, protected, after, n)
    ensures after.Keys <= before.Keys && forall key :: key in after ==> after[key] == before[key]
    ensures ProtectedPart(after, protected) == ProtectedPart(before, protected)
    ensures forall gone, kept :: gone in before && gone !in after && kept in after && kept !in protected
              ==> NotYounger(before, gone, kept)
    ensures |before| == |after| + n
  {
    hide OldLe, NotYounger;
    var order :| OldestFirst(before, protected, order) && n <= |order| && after == Drop(before, order[..n]);
    forall key | key in protected ensures key !in order[..n] {
      assert key !in order;
    }
    forall gone, kept | gone in before && gone !in after && kept in after && kept !in protected
      ensures NotYounger(before, gone, kept)
    {
      var i :| 0 <= i < n && order[i] == gone;
      assert kept in order;
      var j :| 0 <= j < |order| && order[j] == kept;
      assert forall m :: 0 <= m < n ==> order[m] in order[..n];
      assert j >= n;
      OrderIsAge(before, gone, kept);
    }
    DropSize(before, order[..n]);
  }

  lemma {:induction false} DropSize(entries: Entries, keys: seq<string>)
    requires Ordering.Distinct(keys) && forall key :: key in keys ==> key in entries
    ensures |Drop(entries, keys)| == |entries| - |keys|
  {
    if keys == [] {
      assert Drop(entries, keys) == entries;
    } else {
      var init, last := keys[..|keys| - 1], keys[|keys| - 1];
      DropSize(entries, init);
      assert last in Drop(entries, init);
      assert Drop(entries, keys) == Drop(entries, init) - {last};
      assert Drop(entries, init) == Drop(entries, keys)[last := entries[last]];
    }
  }

  lemma DropAllUnprotected(entries: Entries, protected: set<string>, order: seq<string>)
    requires OldestFirst(entries, protected, order)
    ensures Drop(entries, order) == ProtectedPart(entries, protected)
  {
  }

  method OrderedUnprotectedKeys(entries: Entries, protected: set<string>) returns (order: seq<string>)
    ensures OldestFirst(entries, protected, order)
  {
    hide *;
    var listed := ListUnprotected(entries, protected);
    OldLeIsTotalPreorder();
    Ordering.SortFacts(OldLe, listed);
    var sorted := Ordering.Sort(OldLe, listed);
    Ordering.DistinctPermutation(listed, sorted);
    order := SecondOf(entries, protected, sorted);
  }

  ghost predicate Listed(entries: Entries, protected: set<string>, keys: seq<string>, listed: seq<(Instant, string)>) {
    && (forall x :: x in listed <==> x.1 in keys && x.1 !in protected && x == Stamp(entries, x.1))
    && Ordering.Distinct(listed)
  }

  lemma ListedExtends(entries: Entries, protected: set<string>, keys: seq<string>, listed: seq<(Instant, string)>,
                      key: string)
    requires Listed(entries, protected, keys, listed) && key !in keys
    ensures Listed(entries, protected, keys + [key],
                   if key in protected then listed else listed + [Stamp(entries, key)])
  {
    assert Stamp(entries, key) !in listed;
  }

  method ListUnprotected(entries: Entries, protected: set<string>) returns (listed: seq<(Instant, string)>)
    ensures forall x :: x in listed <==> x.1 in entries && x.1 !in protected && x == Stamp(entries, x.1)
    ensures Ordering.Distinct(listed)
  {
    hide Stamp;
    var keys := Ordering.SortedKeys(entries.Keys);
    listed := [];
    for i := 0 to |keys|
      invariant Listed(entries, protected, keys[..i], listed)
    {
      hide Listed;
      ListedExtends(entries, protected, keys[..i], listed, keys[i]);
      assert keys[..i + 1] == keys[..i] + [keys[i]];
      if keys[i] !in protected {
        listed := listed + [Stamp(entries, keys[i])];
      }
    }
    assert keys[..|keys|] == keys;
  }

  method SecondOf(entries: Entries, ghost protected: set<string>, sorted: seq<(Instant, string)>)
    returns (order: seq<string>)
    requires forall x :: x in sorted <==> x.1 in entries && x.1 !in protected && x == Stamp(entries, x.1)
    requires Ordering.Distinct(sorted) && Ordering.Sorted(OldLe, sorted)
    ensures OldestFirst(entries, protected, order)
  {
    hide OldLe;
    order := seq(|sorted|, i requires 0 <= i < |sorted| => sorted[i].1);
    forall i | 0 <= i < |sorted|
      ensures Stamp(entries, order[i]) == sorted[i] && order[i] in entries && order[i] !in protected
    {
      assert sorted[i] in sorted;
    }
    forall key | key in entries && key !in protected ensures key in order {
      assert Stamp(entries, key) in sorted;
      var i :| 0 <= i < |sorted| && sorted[i] == Stamp(entries, key);
      assert order[i] == key;
    }
  }

  // ----- The byte bound

  /** The number of entries that the average entry size suggests to remove, at least one. */
  function Wanted(encoded: U64, entries: nat, limit: U64): (n: nat)
    requires encoded > limit
    ensures n >= 1
  {
    var average := AverageSize(encoded, entries);
    Max(Add64(encoded - limit, Cap64(average - 1)) / average, 1)
  }

  function AverageSize(encoded: U64, entries: nat): (n: nat)
    ensures n >= 1
  {
    Max(encoded / Max(entries, 1), 1)
  }

  /** Short of saturation it is the least number of average entries that covers the excess. */
  lemma WantedCoversExcess(encoded: U64, entries: nat, limit: U64)
    requires encoded > limit && encoded - limit + AverageSize(encoded, entries) - 1 <= U64_MAX
    ensures var n, average := Wanted(encoded, entries, limit), AverageSize(encoded, entries);
            (n - 1) * average < encoded - limit <= n * average
  {
    var excess, average := encoded - limit, AverageSize(encoded, entries);
    CeilingCovers(excess, average);
    assert Wanted(encoded, entries, limit) == Max((excess + average - 1) / average, 1);
  }

  lemma CeilingCovers(x: nat, d: nat)
    requires x > 0 && d > 0
    ensures var n := (x + d - 1) / d; n >= 1 && (n - 1) * d < x <= n * d
  {
    var n := (x + d - 1) / d;
    assert x + d - 1 == n * d + (x + d - 1) % d;
    assert (n - 1) * d == n * d - d;
  }

  ghost predicate Monotone(size: Entries -> U64) {
    forall a: Entries, b: Entries {:trigger size(a), size(b)} :: Within(a, b) ==> size(a) <= size(b)
  }

  ghost predicate Within(a: Entries, b: Entries) {
    a.Keys <= b.Keys && forall key :: key in a ==> a[key] == b[key]
  }

  lemma ProtectedPartIsSmallest(before: Entries, protected: set<string>, after: Entries, n: nat)
    requires EvictsOldest(before, protected, after, n)
    ensures Within(ProtectedPart(before, protected), after)
  {
    EvictionKeepsProtectedAndYoungest(before, protected, after, n);
    assert forall key :: key in ProtectedPart(before, protected) ==> key in ProtectedPart(after, protected);
  }

  lemma EvictionKeepsValidity(before: Entries, protected: set<string>, after: Entries, n: nat)
    requires EvictsOldest(before, protected, after, n)
    ensures ProtectedPart(after, protected) == ProtectedPart(before, protected)
    ensures |after| <= |before|
    ensures AllValid(before) ==> AllValid(after)
    ensures AllValid(after) ==> AllValid(ProtectedPart(before, protected))
  {
    hide ValidKey, ValidEvidence;
    EvictionKeepsProtectedAndYoungest(before, protected, after, n);
  }

  // ----- The state

  class PersistentState {
    var entries: Entries
    var dirty: bool
    var protected: set<string>
    /** The file on disk. */
    var file: Option<CacheFile>

    /** A process start: an unreadable file counts as an empty cache. */
    constructor (file: Option<CacheFile>)
      ensures this.file == file && protected == {} && !dirty
      ensures entries == match ReadCache(file) case Some(e) => e case None => map[]
      ensures |entries| <= MAX_ENTRIES
    {
      entries := match ReadCache(file) case Some(e) => e case None => map[];
      this.file, protected, dirty := file, {}, false;
    }

    method Remember(key: string, at: Instant, evidence: Evidence)
      modifies this
      ensures entries == old(entries)[key := Entry(at, evidence)]
      ensures protected == old(protected) + {key} && dirty && file == old(file)
    {
      entries := entries[key := Entry(at, evidence)];
      protected := protected + {key};
      dirty := true;
    }

    /** Evicts as many of the oldest unprotected entries as exceed the bound, or fails and changes nothing. */
    method TrimEntries(maximum: nat) returns (ok: bool)
      modifies `entries
      ensures ok <==> |ProtectedPart(old(entries), protected)| <= maximum
      ensures ok ==>
                EvictsOldest(old(entries), protected, entries,
                             if |old(entries)| <= maximum then 0 else |old(entries)| - maximum)
      ensures ok ==> |entries| <= maximum
      ensures !ok ==> entries == old(entries) && EvictsOldest(entries, protected, entries, 0)
    {
      ghost var before := entries;
      var excess := if |entries| <= maximum then 0 else |entries| - maximum;
      var oldest := OrderedUnprotectedKeys(entries, protected);
      DropSize(entries, oldest);
      DropAllUnprotected(entries, protected, oldest);
      ok := excess <= |oldest|;
      if !ok {
        assert Drop(entries, oldest[..0]) == entries;
        return;
      }
      RemoveKeys(oldest, 0, excess);
      assert oldest[0..excess] == oldest[..excess];
      assert EvictsOldest(before, protected, entries, excess);
      EvictionKeepsProtectedAndYoungest(before, protected, entries, excess);
    }

    method RemoveKeys(keys: seq<string>, from: nat, to: nat)
      requires from <= to <= |keys|
      modifies `entries
      ensures entries == Drop(old(entries), keys[from..to])
    {
      assert entries == Drop(entries, keys[from..from]);
      for i := from to to
        invariant entries == Drop(old(entries), keys[from..i])
      {
        assert keys[from..i + 1] == keys[from..i] + [keys[i]];
        entries := entries - {keys[i]};
      }
    }

    /**
     Removes oldest-first batches until the encoding fits.  A failure has evicted
     every unprotected entry and still does not fit.
     */
    method EncodeWithLimit(size: Entries -> U64, limit: U64) returns (r: Option<U64>, ghost evicted: nat)
      modifies `entries
      ensures EvictsOldest(old(entries), protected, entries, evicted)
      ensures r.Some? ==> r.value == size(entries) <= limit
      ensures r.None? ==> entries == ProtectedPart(old(entries), protected) && size(entries) > limit
      ensures size(old(entries)) <= limit ==> r.Some? && entries == old(entries)
      ensures Monotone(size) ==> (r.Some? <==> size(ProtectedPart(old(entries), protected)) <= limit)
    {
      hide Wanted, OldLe, Stamp, Drop, EvictsOldest, ProtectedPart, Monotone;
      ghost var before := entries;
      var candidates := OrderedUnprotectedKeys(entries, protected);
      var next := 0;
      DropNothing(before, candidates[..0]);
      while true
        invariant 0 <= next <= |candidates|
        invariant entries == Drop(before, candidates[..next])
        invariant next > 0 ==> size(before) > limit
        decreases |candidates| - next
      {
        evicted := next;
        EvictsPrefix(before, protected, candidates, next);
        var encoded := size(entries);
        if encoded <= limit {
          ProtectedPartIsSmallest(before, protected, entries, evicted);
          MonotoneOn(size, ProtectedPart(before, protected), entries);
          return Some(encoded), evicted;
        }
        var wanted := Wanted(encoded, |entries|, limit);
        var available := |candidates| - next;
        var removing := if wanted <= available then wanted else available;
        if removing == 0 {
          assert candidates[..next] == candidates;
          DropAllUnprotected(before, protected, candidates);
          return None, evicted;
        }
        RemoveKeys(candidates, next, next + removing);
        DropTwice(before, candidates, next, next + removing);
        next := next + removing;
      }
    }

    /**
     The whole write.  One prefix of the eviction order goes, whatever the result;
     what is written is within both bounds and reads back as it is.
     */
    method Persist(size: Entries -> U64, writeSucceeds: bool) returns (r: Outcome<(), PersistError>, ghost evicted: nat)
      modifies `entries, `file
      ensures EvictsOldest(old(entries), protected, entries, evicted)
      ensures r.Success? ==> |entries| <= MAX_ENTRIES && size(entries) <= MAX_BYTES
      ensures r.Success? ==>
                file == Some(CacheFile(size(entries), FORMAT_VERSION, entries)) && ReadCache(file) == Some(entries)
      ensures r.Failure? ==> file == old(file)
      ensures r == Failure(TooManyProtected) <==> |ProtectedPart(old(entries), protected)| > MAX_ENTRIES
      ensures r == Failure(TooManyProtected) ==> entries == old(entries)
      ensures r == Failure(InvalidEntries) ==> !AllValid(entries)
      ensures r == Failure(ProtectedTooLarge) ==>
                entries == ProtectedPart(old(entries), protected) && size(entries) > MAX_BYTES
      ensures r.Success? ==> AllValid(ProtectedPart(old(entries), protected))
      ensures r == Failure(WriteFailed) ==> !writeSucceeds
      ensures r.Success? ==> writeSucceeds
      ensures Monotone(size) && AllValid(old(entries)) ==>
                (r.Success? <==>
                   && |ProtectedPart(old(entries), protected)| <= MAX_ENTRIES
                   && size(ProtectedPart(old(entries), protected)) <= MAX_BYTES
                   && writeSucceeds)
    {
      hide AllValid, EvictsOldest, Drop, ProtectedPart, Monotone, OldLe;
      ghost var before := entries;
      ghost var n := if |before| <= MAX_ENTRIES then 0 else |before| - MAX_ENTRIES;
      var ok := TrimEntries(MAX_ENTRIES);
      ghost var trimmed := entries;
      if !ok {
        return Failure(TooManyProtected), 0;
      }
      EvictionKeepsValidity(before, protected, trimmed, n);
      if !ValidEntries(FORMAT_VERSION, entries) {
        return Failure(InvalidEntries), n;
      }
      ghost var m;
      var encoded;
      encoded, m := EncodeWithLimit(size, MAX_BYTES);
      evicted := n + m;
      EvictionsCompose(before, protected, trimmed, entries, n, m);
      EvictionKeepsValidity(trimmed, protected, entries, m);
      if encoded.None? {
        return Failure(ProtectedTooLarge), evicted;
      }
      if !writeSucceeds {
        return Failure(WriteFailed), evicted;
      }
      file := Some(CacheFile(encoded.value, FORMAT_VERSION, entries));
      return Success(()), evicted;
    }
  }

  lemma DropNothing(entries: Entries, keys: seq<string>)
    ensures keys == [] ==> Drop(entries, keys) == entries
  {
  }

  lemma EvictsPrefix(entries: Entries, protected: set<string>, order: seq<string>, n: nat)
    requires OldestFirst(entries, protected, order) && n <= |order|
    ensures EvictsOldest(entries, protected, Drop(entries, order[..n]), n)
  {
  }

  lemma MonotoneOn(size: Entries -> U64, a: Entries, b: Entries)
    requires Within(a, b)
    ensures Monotone(size) ==> size(a) <= size(b)
  {
  }

  lemma DropTwice(entries: Entries, keys: seq<string>, i: nat, j: nat)
    requires i <= j <= |keys|
    ensures Drop(Drop(entries, keys[..i]), keys[i..j]) == Drop(entries, keys[..j])
  {
    assert keys[..j] == keys[..i] + keys[i..j];
  }
}
