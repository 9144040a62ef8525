/**
 Paginated thread listings from an arbitrary server (src/app_server.rs): the
 persisted inventory and the descendants of a thread.  The server may answer each
 request with anything; what a listing needs to be believed is stated on the
 pages themselves, without the loop that follows the cursors.
 */
module Inventory {
  import opened Options
  import Ordering
  import Text

  const MAX_DELETION_THREADS: nat := 512
  const MAX_LIST_PAGES: nat := 32
  const MAX_INVENTORY_PAGES: nat := 128
  const MAX_PAGE: nat := 100
  const MAX_ID_BYTES: nat := 256

  datatype Next = End | Cursor(cursor: string) | Malformed

  /** An entry is its thread identity, or nothing when it has none. */
  datatype Page = Page(entries: seq<Option<string>>, next: Next)

  datatype Response = Refused | Listed(page: Page)

  /** The answer to the n-th request for the pages of one archive state behind a cursor. */
  type Server = (nat, bool, Option<string>) -> Response

  /** What a listing demands of its pages, and which identities it keeps. */
  datatype Rules = Rules(maxPages: nat, maxPage: Option<nat>, maxIds: Option<nat>, valid: string -> bool,
                         keep: string -> bool)

  function InventoryRules(targets: set<string>): Rules {
    Rules(MAX_INVENTORY_PAGES, Some(MAX_PAGE), None,
          id => id != "" && Text.ByteLength(id) <= MAX_ID_BYTES, id => id in targets)
  }

  function DescendantRules(root: string): Rules {
    Rules(MAX_LIST_PAGES, None, Some(MAX_DELETION_THREADS - 1), id => id != root, id => true)
  }

  // ----- Believable listings

  function PageIds(entries: seq<Option<string>>): seq<string> {
    if entries == [] then []
    else PageIds(entries[..|entries| - 1]) + if entries[|entries| - 1].Some? then [entries[|entries| - 1].value] else []
  }

  function Ids(pages: seq<Page>): seq<string> {
    if pages == [] then [] else Ids(pages[..|pages| - 1]) + PageIds(pages[|pages| - 1].entries)
  }

  ghost predicate EntryAllowed(rules: Rules, entry: Option<string>) {
    entry.Some? && rules.valid(entry.value)
  }

  ghost predicate PageAllowed(rules: Rules, page: Page) {
    && (rules.maxPage.Some? ==> |page.entries| <= rules.maxPage.value)
    && forall i :: 0 <= i < |page.entries| ==> EntryAllowed(rules, page.entries[i])
  }

  ghost predicate IdsAllowed(rules: Rules, ids: seq<string>) {
    Ordering.Distinct(ids) && (rules.maxIds.Some? ==> |ids| <= rules.maxIds.value)
  }

  /** Every entry is well formed, and no identity occurs twice, counting those listed before. */
  ghost predicate Acceptable(rules: Rules, listed: seq<string>, pages: seq<Page>) {
    && (forall i :: 0 <= i < |pages| ==> PageAllowed(rules, pages[i]))
    && IdsAllowed(rules, listed + Ids(pages))
  }

  /** The cursor that the last page gives for the next request. */
  function Behind(pages: seq<Page>): Option<string> {
    if pages == [] || !pages[|pages| - 1].next.Cursor? then None else Some(pages[|pages| - 1].next.cursor)
  }

  /** The server's own answers, each page asked for with the cursor of the one before. */
  ghost predicate Answered(server: Server, base: nat, archived: bool, pages: seq<Page>) {
    pages == [] ||
    var init := pages[..|pages| - 1];
    Answered(server, base, archived, init) && server(base + |init|, archived, Behind(init)) == Listed(pages[|init|])
  }

  ghost predicate Continues(pages: seq<Page>) {
    && (forall i :: 0 <= i < |pages| ==> pages[i].next.Cursor? && pages[i].next.cursor != "")
    && forall i, j :: 0 <= i < j < |pages| ==> pages[i].next != pages[j].next
  }

  /** Followed from the start to a null cursor, with new cursors only and within the page budget. */
  ghost predicate Complete(server: Server, rules: Rules, base: nat, archived: bool, pages: seq<Page>) {
    && 1 <= |pages| <= rules.maxPages
    && Answered(server, base, archived, pages)
    && Continues(pages[..|pages| - 1]) && pages[|pages| - 1].next.End?
  }

  /** A pass that a caller may rely on. */
  ghost predicate Believable(server: Server, rules: Rules, base: nat, archived: bool, listed: seq<string>,
                             pages: seq<Page>) {
    Complete(server, rules, base, archived, pages) && Acceptable(rules, listed, pages)
  }

  /** Both passes, the archived one following the other. */
  ghost predicate BelievableInventory(server: Server, rules: Rules, first: seq<Page>, second: seq<Page>) {
    && Believable(server, rules, 0, false, [], first)
    && Believable(server, rules, |first|, true, Ids(first), second)
  }

  // ----- A server has at most one complete listing

  lemma {:induction false} AnsweredPrefix(server: Server, base: nat, archived: bool, pages: seq<Page>, n: nat)
    requires Answered(server, base, archived, pages) && n <= |pages|
    ensures Answered(server, base, archived, pages[..n])
  {
    if n < |pages| {
      AnsweredPrefix(server, base, archived, pages[..|pages| - 1], n);
      assert pages[..|pages| - 1][..n] == pages[..n];
    } else {
      assert pages[..n] == pages;
    }
  }

  /** The answers so far determine the next request, so equally long walks are the same walk. */
  lemma {:induction false} AnsweredIsDetermined(server: Server, base: nat, archived: bool, a: seq<Page>, b: seq<Page>)
    requires Answered(server, base, archived, a) && Answered(server, base, archived, b) && |a| == |b|
    ensures a == b
  {
    if a != [] {
      AnsweredIsDetermined(server, base, archived, a[..|a| - 1], b[..|b| - 1]);
      assert a == a[..|a| - 1] + [a[|a| - 1]] && b == b[..|b| - 1] + [b[|b| - 1]];
    }
  }

  lemma AnsweredCommon(server: Server, base: nat, archived: bool, a: seq<Page>, b: seq<Page>)
    requires Answered(server, base, archived, a) && Answered(server, base, archived, b) && |a| <= |b|
    ensures a == b[..|a|]
  {
    AnsweredPrefix(server, base, archived, b, |a|);
    AnsweredIsDetermined(server, base, archived, a, b[..|a|]);
  }

  /** Every complete listing goes on from followed pages with the server's next answer. */
  lemma NextOfWhole(server: Server, rules: Rules, base: nat, archived: bool, pages: seq<Page>, whole: seq<Page>)
    requires Answered(server, base, archived, pages) && Continues(pages)
    requires Complete(server, rules, base, archived, whole)
    ensures |pages| < |whole| && whole[..|pages|] == pages
    ensures server(base + |pages|, archived, Behind(pages)) == Listed(whole[|pages|])
  {
    hide Continues, Behind, Answered;
    EndsBehind(server, rules, base, archived, pages, whole);
    AnsweredCommon(server, base, archived, pages, whole);
    AnsweredAt(server, base, archived, whole, |pages|);
  }

  lemma AnsweredAt(server: Server, base: nat, archived: bool, pages: seq<Page>, n: nat)
    requires Answered(server, base, archived, pages) && n < |pages|
    ensures server(base + n, archived, Behind(pages[..n])) == Listed(pages[n])
  {
    hide Behind;
    AnsweredPrefix(server, base, archived, pages, n + 1);
    var part := pages[..n + 1];
    assert part[..|part| - 1] == pages[..n] && part[n] == pages[n];
  }

  lemma EndsBehind(server: Server, rules: Rules, base: nat, archived: bool, pages: seq<Page>, whole: seq<Page>)
    requires Answered(server, base, archived, pages) && Continues(pages)
    requires Complete(server, rules, base, archived, whole)
    ensures |pages| < |whole|
  {
    if |whole| <= |pages| {
      SameLastPage(server, base, archived, pages, whole);
    }
  }

  lemma SameLastPage(server: Server, base: nat, archived: bool, pages: seq<Page>, part: seq<Page>)
    requires Answered(server, base, archived, pages) && Answered(server, base, archived, part)
    requires 1 <= |part| <= |pages|
    ensures pages[|part| - 1] == part[|part| - 1]
  {
    AnsweredCommon(server, base, archived, part, pages);
    assert pages[..|part|][|part| - 1] == pages[|part| - 1];
  }

  lemma CompleteIsUnique(server: Server, rules: Rules, base: nat, archived: bool, a: seq<Page>, b: seq<Page>)
    requires Complete(server, rules, base, archived, a) && Complete(server, rules, base, archived, b)
    ensures a == b
  {
    hide Continues;
    AnsweredPrefix(server, base, archived, a, |a| - 1);
    AnsweredPrefix(server, base, archived, b, |b| - 1);
    NextOfWhole(server, rules, base, archived, a[..|a| - 1], b);
    NextOfWhole(server, rules, base, archived, b[..|b| - 1], a);
    AnsweredIsDetermined(server, base, archived, a, b);
  }

  // ----- Acceptance of prefixes

  lemma {:induction false} IdsConcat(a: seq<Page>, b: seq<Page>)
    ensures Ids(a + b) == Ids(a) + Ids(b)
  {
    hide PageIds, Ids;
    if b == [] {
      NoPages();
      assert a + b == a;
    } else {
      var init, last := b[..|b| - 1], b[|b| - 1];
      IdsConcat(a, init);
      LastPage(a + init, last);
      LastPage(init, last);
      assert a + b == a + init + [last] && b == init + [last];
    }
  }

  lemma NoPages()
    ensures Ids([]) == []
  {
  }

  lemma AcceptablePrefix(rules: Rules, listed: seq<string>, pages: seq<Page>, n: nat)
    requires Acceptable(rules, listed, pages) && n <= |pages|
    ensures Acceptable(rules, listed, pages[..n])
  {
    IdsConcat(pages[..n], pages[n..]);
    assert pages == pages[..n] + pages[n..];
    var all, few := listed + Ids(pages), listed + Ids(pages[..n]);
    assert all == few + Ids(pages[n..]);
    forall i, j | 0 <= i < j < |few| ensures few[i] != few[j] {
      assert few[i] == all[i] && few[j] == all[j];
    }
  }

  /** One more page, judged on its own against what was listed before it. */
  lemma AcceptableExtends(rules: Rules, listed: seq<string>, pages: seq<Page>, page: Page)
    requires Acceptable(rules, listed, pages)
    ensures IdsAllowed(rules, listed + Ids(pages))
    ensures Acceptable(rules, listed, pages + [page])
       <==> PageAllowed(rules, page) && IdsAllowed(rules, listed + Ids(pages) + PageIds(page.entries))
  {
    var more := pages + [page];
    assert more[..|pages|] == pages && more[|pages|] == page;
    assert listed + Ids(more) == listed + Ids(pages) + PageIds(page.entries);
  }

  lemma {:induction false} PageIdsPrefix(entries: seq<Option<string>>, n: nat)
    requires n <= |entries|
    ensures PageIds(entries[..n]) <= PageIds(entries)
  {
    if n < |entries| {
      PageIdsPrefix(entries[..|entries| - 1], n);
      assert entries[..|entries| - 1][..n] == entries[..n];
    } else {
      assert entries[..n] == entries;
    }
  }

  lemma DistinctPrefix(a: seq<string>, b: seq<string>)
    requires a <= b && Ordering.Distinct(b)
    ensures Ordering.Distinct(a)
  {
    assert forall i :: 0 <= i < |a| ==> a[i] == b[i];
  }

  // ----- Reading

  function Elements(ids: seq<string>): set<string> {
    set id | id in ids
  }

  function Filter(keep: string -> bool, ids: seq<string>): seq<string> {
    if ids == [] then []
    else Filter(keep, ids[..|ids| - 1]) + if keep(ids[|ids| - 1]) then [ids[|ids| - 1]] else []
  }

  lemma {:induction false} FilterMembers(keep: string -> bool, ids: seq<string>)
    ensures forall id :: id in Filter(keep, ids) <==> id in ids && keep(id)
  {
    if ids != [] {
      FilterMembers(keep, ids[..|ids| - 1]);
      assert ids == ids[..|ids| - 1] + [ids[|ids| - 1]];
    }
  }

  lemma {:induction false} FilterAll(keep: string -> bool, ids: seq<string>)
    requires forall id :: id in ids ==> keep(id)
    ensures Filter(keep, ids) == ids
  {
    if ids != [] {
      var init, last := ids[..|ids| - 1], ids[|ids| - 1];
      assert ids == init + [last];
      assert forall id :: id in init ==> id in ids;
      FilterAll(keep, init);
      assert keep(last) by { assert last in ids; }
    }
  }

  /** The identities listed so far, the set used to find repetitions, and those kept. */
  ghost predicate Tracks(rules: Rules, ids: seq<string>, seen: set<string>, kept: seq<string>) {
    && (forall id :: id in ids <==> id in seen)
    && |seen| == |ids|
    && kept == Filter(rules.keep, ids)
  }

  lemma TracksExtend(rules: Rules, ids: seq<string>, seen: set<string>, kept: seq<string>, id: string)
    requires Tracks(rules, ids, seen, kept) && id !in seen
    ensures Tracks(rules, ids + [id], seen + {id}, if rules.keep(id) then kept + [id] else kept)
  {
    assert (ids + [id])[..|ids|] == ids;
  }

  method ReadPage(rules: Rules, page: Page, seen0: set<string>, kept0: seq<string>, ghost ids: seq<string>)
    returns (ok: bool, seen: set<string>, kept: seq<string>)
    requires IdsAllowed(rules, ids) && Tracks(rules, ids, seen0, kept0)
    ensures ok <==> PageAllowed(rules, page) && IdsAllowed(rules, ids + PageIds(page.entries))
    ensures ok ==> Tracks(rules, ids + PageIds(page.entries), seen, kept)
  {
    hide Tracks, PageIds, IdsAllowed;
    seen, kept := seen0, kept0;
    if rules.maxPage.Some? && |page.entries| > rules.maxPage.value {
      return false, seen, kept;
    }
    ghost var all := ids;
    assert ids + PageIds(page.entries[..0]) == ids by {
      NoEntries(page.entries[..0]);
    }
    for i := 0 to |page.entries|
      invariant all == ids + PageIds(page.entries[..i])
      invariant IdsAllowed(rules, all) && Tracks(rules, all, seen, kept)
      invariant forall j :: 0 <= j < i ==> EntryAllowed(rules, page.entries[j])
    {
      var entry := page.entries[i];
      ok := ReadEntry(rules, entry, seen, all, kept);
      PageIdsExtend(page.entries, i);
      if !ok {
        if EntryAllowed(rules, entry) {
          PageIdsPrefix(page.entries, i + 1);
          assert all + [entry.value] == ids + PageIds(page.entries[..i + 1]);
          NotAllowedBehind(rules, ids, PageIds(page.entries[..i + 1]), PageIds(page.entries));
        }
        return;
      }
      TracksExtend(rules, all, seen, kept, entry.value);
      all := all + [entry.value];
      seen := seen + {entry.value};
      if rules.keep(entry.value) {
        kept := kept + [entry.value];
      }
    }
    assert page.entries[..|page.entries|] == page.entries;
    ok := true;
  }

  lemma NoEntries(entries: seq<Option<string>>)
    ensures entries == [] ==> PageIds(entries) == []
  {
  }

  lemma PageIdsExtend(entries: seq<Option<string>>, i: nat)
    requires i < |entries|
    ensures PageIds(entries[..i + 1]) == PageIds(entries[..i]) + if entries[i].Some? then [entries[i].value] else []
  {
    assert entries[..i + 1][..i] == entries[..i];
  }

  lemma NotAllowedBehind(rules: Rules, ids: seq<string>, few: seq<string>, all: seq<string>)
    requires few <= all && !IdsAllowed(rules, ids + few)
    ensures !IdsAllowed(rules, ids + all)
  {
    assert ids + few <= ids + all;
    if Ordering.Distinct(ids + all) {
      DistinctPrefix(ids + few, ids + all);
    }
  }

  /** Whether the entry has a valid identity that is new and still fits. */
  method ReadEntry(rules: Rules, entry: Option<string>, seen: set<string>, ghost all: seq<string>,
                   ghost kept: seq<string>) returns (ok: bool)
    requires IdsAllowed(rules, all) && Tracks(rules, all, seen, kept)
    ensures ok <==> EntryAllowed(rules, entry) && IdsAllowed(rules, all + [entry.value])
    ensures ok ==> entry.value !in seen
  {
    if entry.None? || !rules.valid(entry.value) {
      return false;
    }
    ghost var more := all + [entry.value];
    if entry.value in seen {
      assert entry.value in all;
      ghost var i :| 0 <= i < |all| && all[i] == entry.value;
      assert more[i] == more[|all|];
      return false;
    }
    if rules.maxIds.Some? && |seen| >= rules.maxIds.value {
      return false;
    }
    return true;
  }

  ghost predicate CursorsOf(pages: seq<Page>, cursors: set<string>) {
    && (forall c :: c in cursors ==> exists i :: 0 <= i < |pages| && pages[i].next == Cursor(c))
    && forall i :: 0 <= i < |pages| && pages[i].next.Cursor? ==> pages[i].next.cursor in cursors
  }

  /** A cursor leads on exactly if it is there, not empty and new. */
  lemma CursorsExtend(pages: seq<Page>, cursors: set<string>, page: Page)
    requires Continues(pages) && CursorsOf(pages, cursors)
    ensures page.next.Cursor? && page.next.cursor != "" && page.next.cursor !in cursors <==> Continues(pages + [page])
    ensures page.next.Cursor? ==> CursorsOf(pages + [page], cursors + {page.next.cursor})
  {
    var more := pages + [page];
    assert more[|pages|] == page;
    assert forall i :: 0 <= i < |pages| ==> more[i] == pages[i];
    if page.next.Cursor? {
      forall c | c in cursors + {page.next.cursor} ensures exists i :: 0 <= i < |more| && more[i].next == Cursor(c) {
        if c in cursors {
          var i :| 0 <= i < |pages| && pages[i].next == Cursor(c);
          assert more[i].next == Cursor(c);
        }
      }
    }
  }

  /** One pass.  It succeeds exactly if the server's pages form a believable listing. */
  method ListPass(server: Server, rules: Rules, base: nat, archived: bool, seen0: set<string>, kept0: seq<string>,
                  ghost listed: seq<string>)
    returns (ok: bool, seen: set<string>, kept: seq<string>, used: nat, ghost pages: seq<Page>)
    requires IdsAllowed(rules, listed) && Tracks(rules, listed, seen0, kept0)
    ensures used <= rules.maxPages
    ensures ok ==> Believable(server, rules, base, archived, listed, pages) && used == |pages|
    ensures ok ==> Tracks(rules, listed + Ids(pages), seen, kept)
    ensures !ok ==> forall p :: !Believable(server, rules, base, archived, listed, p)
  {
    hide *;
    seen, kept, used, pages := seen0, kept0, 0, [];
    var cursor: Option<string> := None;
    var cursors: set<string> := {};
    NothingListed(server, rules, base, archived, listed);
    while used < rules.maxPages
      invariant used == |pages| <= rules.maxPages
      invariant Answered(server, base, archived, pages) && Continues(pages)
      invariant cursor == Behind(pages) && CursorsOf(pages, cursors)
      invariant Acceptable(rules, listed, pages)
      invariant Tracks(rules, listed + Ids(pages), seen, kept)
    {
      var response := server(base + used, archived, cursor);
      used := used + 1;
      if response.Refused? {
        NothingBehindRefusal(server, rules, base, archived, listed, pages);
        return false, seen, kept, used, pages;
      }
      var page := response.page;
      ghost var more := pages + [page];
      AcceptableExtends(rules, listed, pages, page);
      AnsweredExtends(server, base, archived, pages, page);
      ok, seen, kept := ReadPage(rules, page, seen, kept, listed + Ids(pages));
      LastPage(pages, page);
      if !ok {
        NothingBehindBadPage(server, rules, base, archived, listed, pages, page);
        return;
      }
      assert listed + Ids(more) == listed + Ids(pages) + PageIds(page.entries);
      CompleteNow(server, rules, base, archived, listed, pages, page);
      CursorsExtend(pages, cursors, page);
      if page.next.End? {
        pages := more;
        return true, seen, kept, used, pages;
      }
      if page.next.Malformed? || page.next.cursor == "" || page.next.cursor in cursors {
        NothingBehindBadCursor(server, rules, base, archived, listed, pages, page);
        return false, seen, kept, used, pages;
      }
      cursor := Some(page.next.cursor);
      cursors := cursors + {page.next.cursor};
      pages := more;
    }
    NothingWithinBudget(server, rules, base, archived, listed, pages);
    ok := false;
  }

  lemma NothingListed(server: Server, rules: Rules, base: nat, archived: bool, listed: seq<string>)
    requires IdsAllowed(rules, listed)
    ensures Answered(server, base, archived, []) && Continues([]) && CursorsOf([], {}) && Behind([]) == None
    ensures listed + Ids([]) == listed && Acceptable(rules, listed, [])
  {
    hide IdsAllowed;
    assert listed + Ids([]) == listed;
  }

  lemma LastPage(pages: seq<Page>, page: Page)
    ensures Ids(pages + [page]) == Ids(pages) + PageIds(page.entries)
    ensures page.next.Cursor? ==> Behind(pages + [page]) == Some(page.next.cursor)
  {
    assert (pages + [page])[..|pages|] == pages;
  }

  lemma CompleteNow(server: Server, rules: Rules, base: nat, archived: bool, listed: seq<string>, pages: seq<Page>,
                    page: Page)
    requires Answered(server, base, archived, pages + [page]) && Continues(pages)
    requires Acceptable(rules, listed, pages + [page]) && |pages| < rules.maxPages
    ensures page.next.End? ==> Believable(server, rules, base, archived, listed, pages + [page])
  {
    hide Acceptable, Answered;
    assert (pages + [page])[..|pages|] == pages;
  }

  lemma NothingWithinBudget(server: Server, rules: Rules, base: nat, archived: bool, listed: seq<string>,
                            pages: seq<Page>)
    requires Answered(server, base, archived, pages) && Continues(pages) && |pages| >= rules.maxPages
    ensures forall p :: !Believable(server, rules, base, archived, listed, p)
  {
    hide Acceptable;
    forall p ensures !Complete(server, rules, base, archived, p) {
      if Complete(server, rules, base, archived, p) {
        EndsBehind(server, rules, base, archived, pages, p);
      }
    }
  }

  lemma AnsweredExtends(server: Server, base: nat, archived: bool, pages: seq<Page>, page: Page)
    requires Answered(server, base, archived, pages)
    requires server(base + |pages|, archived, Behind(pages)) == Listed(page)
    ensures Answered(server, base, archived, pages + [page])
  {
    assert (pages + [page])[..|pages|] == pages;
  }

  lemma NothingBehindRefusal(server: Server, rules: Rules, base: nat, archived: bool, listed: seq<string>,
                             pages: seq<Page>)
    requires Answered(server, base, archived, pages) && Continues(pages)
    requires server(base + |pages|, archived, Behind(pages)).Refused?
    ensures forall p :: !Believable(server, rules, base, archived, listed, p)
  {
    hide Complete, Acceptable;
    forall p ensures !Complete(server, rules, base, archived, p) {
      if Complete(server, rules, base, archived, p) {
        NextOfWhole(server, rules, base, archived, pages, p);
      }
    }
  }

  lemma NothingBehindBadPage(server: Server, rules: Rules, base: nat, archived: bool, listed: seq<string>,
                             pages: seq<Page>, page: Page)
    requires Answered(server, base, archived, pages) && Continues(pages)
    requires server(base + |pages|, archived, Behind(pages)) == Listed(page)
    requires !Acceptable(rules, listed, pages + [page])
    ensures forall p :: !Believable(server, rules, base, archived, listed, p)
  {
    hide Complete, Acceptable;
    forall p ensures !Believable(server, rules, base, archived, listed, p) {
      if Complete(server, rules, base, archived, p) {
        NextOfWhole(server, rules, base, archived, pages, p);
        assert p[..|pages| + 1] == pages + [page];
        if Acceptable(rules, listed, p) {
          AcceptablePrefix(rules, listed, p, |pages| + 1);
        }
      }
    }
  }

  lemma WholeContinues(server: Server, rules: Rules, base: nat, archived: bool, pages: seq<Page>, page: Page,
                       whole: seq<Page>)
    requires Answered(server, base, archived, pages) && Continues(pages)
    requires server(base + |pages|, archived, Behind(pages)) == Listed(page)
    requires Complete(server, rules, base, archived, whole)
    ensures page.next.End? || Continues(pages + [page])
  {
    NextOfWhole(server, rules, base, archived, pages, whole);
    if |pages| < |whole| - 1 {
      assert whole[..|whole| - 1][..|pages| + 1] == pages + [page];
    }
  }

  lemma NothingBehindBadCursor(server: Server, rules: Rules, base: nat, archived: bool, listed: seq<string>,
                               pages: seq<Page>, page: Page)
    requires Answered(server, base, archived, pages) && Continues(pages)
    requires server(base + |pages|, archived, Behind(pages)) == Listed(page)
    requires !page.next.End? && !Continues(pages + [page])
    ensures forall p :: !Believable(server, rules, base, archived, listed, p)
  {
    hide Acceptable;
    forall p ensures !Complete(server, rules, base, archived, p) {
      if Complete(server, rules, base, archived, p) {
        WholeContinues(server, rules, base, archived, pages, page, p);
      }
    }
  }

  // ----- The two operations

  predicate TargetsAllowed(targets: set<string>) {
    targets != {} && |targets| <= MAX_DELETION_THREADS
  }

  /** Both passes in a row. */
  method ListBoth(server: Server, rules: Rules)
    returns (r: Option<seq<string>>, used: nat, ghost first: seq<Page>, ghost second: seq<Page>)
    ensures used <= 2 * rules.maxPages
    ensures r.Some? ==>
              && BelievableInventory(server, rules, first, second)
              && r.value == Filter(rules.keep, Ids(first) + Ids(second))
    ensures r.None? ==> forall a, b :: !BelievableInventory(server, rules, a, b)
  {
    hide Filter;
    var ok, seen, kept, more;
    second := [];
    assert Tracks(rules, [], {}, []) by {
      EmptyFilter(rules.keep);
    }
    ok, seen, kept, used, first := ListPass(server, rules, 0, false, {}, [], []);
    if !ok {
      return None, used, first, second;
    }
    assert [] + Ids(first) == Ids(first);
    ok, seen, kept, more, second := ListPass(server, rules, used, true, seen, kept, Ids(first));
    used := used + more;
    if !ok {
      forall a, b | Believable(server, rules, 0, false, [], a)
        ensures !Believable(server, rules, |a|, true, Ids(a), b)
      {
        CompleteIsUnique(server, rules, 0, false, first, a);
      }
      return None, used, first, second;
    }
    return Some(kept), used, first, second;
  }

  lemma EmptyFilter(keep: string -> bool)
    ensures Filter(keep, []) == []
  {
  }

  /**
   The complete inventory.  It answers exactly if both passes are believable, and
   then tells for every target whether the server listed it.
   */
  method PersistedThreads(server: Server, targets: set<string>) returns (r: Option<set<string>>, used: nat)
    ensures used <= 2 * MAX_INVENTORY_PAGES
    ensures r.Some? <==>
              && targets != {} && |targets| <= 512
              && exists a, b :: BelievableInventory(server, InventoryRules(targets), a, b)
    ensures r.Some? ==> forall a, b :: BelievableInventory(server, InventoryRules(targets), a, b) ==>
                          forall id :: id in r.value <==> id in targets && id in Ids(a) + Ids(b)
  {
    hide Believable, Filter;
    if !TargetsAllowed(targets) {
      return None, 0;
    }
    var rules := InventoryRules(targets);
    var kept;
    ghost var first, second;
    kept, used, first, second := ListBoth(server, rules);
    if kept.None? {
      return None, used;
    }
    FilterMembers(rules.keep, Ids(first) + Ids(second));
    forall a, b | BelievableInventory(server, rules, a, b) ensures a == first && b == second {
      InventoryIsUnique(server, rules, first, second, a, b);
    }
    return Some(Elements(kept.value)), used;
  }

  lemma InventoryIsUnique(server: Server, rules: Rules, first: seq<Page>, second: seq<Page>, a: seq<Page>, b: seq<Page>)
    requires BelievableInventory(server, rules, first, second) && BelievableInventory(server, rules, a, b)
    ensures a == first && b == second
  {
    CompleteIsUnique(server, rules, 0, false, first, a);
    CompleteIsUnique(server, rules, |first|, true, second, b);
  }

  /** The expected set of a deletion request. */
  predicate ScopeAccepted(root: string, expected: set<string>) {
    expected != {} && |expected| <= MAX_DELETION_THREADS && root in expected
  }

  /** The descendants of a thread, all of them and in listing order, or nothing. */
  method Descendants(server: Server, root: string) returns (r: Option<seq<string>>, used: nat)
    ensures used <= 2 * MAX_LIST_PAGES
    ensures r.Some? <==> exists a, b :: BelievableInventory(server, DescendantRules(root), a, b)
    ensures r.Some? ==> forall a, b :: BelievableInventory(server, DescendantRules(root), a, b) ==>
              r.value == Ids(a) + Ids(b)
    ensures r.Some? ==> Ordering.Distinct(r.value) && root !in r.value && |r.value| + 1 <= MAX_DELETION_THREADS
    ensures r.Some? ==> ScopeAccepted(root, {root} + Elements(r.value))
  {
    hide Complete, Filter;
    var rules := DescendantRules(root);
    ghost var first, second;
    r, used, first, second := ListBoth(server, rules);
    if r.Some? {
      FilterAll(rules.keep, Ids(first) + Ids(second));
      forall a, b | BelievableInventory(server, rules, a, b) ensures a == first && b == second {
        InventoryIsUnique(server, rules, first, second, a, b);
      }
      ValidIds(rules, first);
      ValidIds(rules, second);
      SetSize(r.value);
    }
  }

  lemma {:induction false} ValidPageIds(rules: Rules, entries: seq<Option<string>>)
    requires forall i :: 0 <= i < |entries| ==> EntryAllowed(rules, entries[i])
    ensures forall id :: id in PageIds(entries) ==> rules.valid(id)
  {
    if entries != [] {
      ValidPageIds(rules, entries[..|entries| - 1]);
    }
  }

  lemma {:induction false} ValidIds(rules: Rules, pages: seq<Page>)
    requires forall i :: 0 <= i < |pages| ==> PageAllowed(rules, pages[i])
    ensures forall id :: id in Ids(pages) ==> rules.valid(id)
  {
    if pages != [] {
      ValidIds(rules, pages[..|pages| - 1]);
      ValidPageIds(rules, pages[|pages| - 1].entries);
    }
  }

  lemma {:induction false} SetSize(ids: seq<string>)
    ensures |Elements(ids)| <= |ids|
  {
    if ids != [] {
      SetSize(ids[..|ids| - 1]);
      assert Elements(ids) == Elements(ids[..|ids| - 1]) + {ids[|ids| - 1]};
    }
  }
}
