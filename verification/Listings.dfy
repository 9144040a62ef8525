/**
 What makes a thread listing believable (src/app_server.rs), with every demand spelled out:
 which requests the pages answer, how they follow each other, and what each entry must be.
 */
module Listings {
  import opened Options
  import opened Inventory
  import Ordering
  import Text

  /** The n-th request carries the cursor of the page before. */
  function CursorFor(pages: seq<Page>, n: nat): Option<string>
    requires n <= |pages|
  {
    if n > 0 && pages[n - 1].next.Cursor? then Some(pages[n - 1].next.cursor) else None
  }

  ghost predicate Answers(server: Server, base: nat, archived: bool, pages: seq<Page>, n: nat)
    requires n < |pages|
  {
    server(base + n, archived, CursorFor(pages, n)) == Listed(pages[n])
  }

  lemma BehindIsCursor(pages: seq<Page>, n: nat)
    requires n <= |pages|
    ensures Behind(pages[..n]) == CursorFor(pages, n)
  {
  }

  lemma {:induction false} AnsweredOneByOne(server: Server, base: nat, archived: bool, pages: seq<Page>)
    ensures Answered(server, base, archived, pages)
       <==> forall n :: 0 <= n < |pages| ==> Answers(server, base, archived, pages, n)
  {
    if Answered(server, base, archived, pages) {
      forall n | 0 <= n < |pages| ensures Answers(server, base, archived, pages, n) {
        AnsweredAt(server, base, archived, pages, n);
        BehindIsCursor(pages, n);
      }
    }
    if pages != [] && forall n :: 0 <= n < |pages| ==> Answers(server, base, archived, pages, n) {
      var init, last := pages[..|pages| - 1], |pages| - 1;
      forall n | 0 <= n < |init| ensures Answers(server, base, archived, init, n) {
        assert Answers(server, base, archived, pages, n);
        assert CursorFor(init, n) == CursorFor(pages, n);
      }
      AnsweredOneByOne(server, base, archived, init);
      BehindIsCursor(pages, last);
      assert Answers(server, base, archived, pages, last);
    }
  }

  /** Only the last page has no cursor; the others have one each, not empty and never the same. */
  ghost predicate WalkedToTheEnd(pages: seq<Page>) {
    && pages != [] && pages[|pages| - 1].next == End
    && (forall i :: 0 <= i < |pages| - 1 ==> pages[i].next.Cursor? && pages[i].next.cursor != "")
    && (forall i, j :: 0 <= i < j < |pages| - 1 ==> pages[i].next.cursor != pages[j].next.cursor)
  }

  /** The pages are the server's answers to the requests for one archive state, at most `limit` of them. */
  ghost predicate WholePass(server: Server, base: nat, archived: bool, limit: nat, pages: seq<Page>) {
    && |pages| <= limit && WalkedToTheEnd(pages)
    && forall n :: 0 <= n < |pages| ==> Answers(server, base, archived, pages, n)
  }

  lemma CompletePass(server: Server, rules: Rules, base: nat, archived: bool, pages: seq<Page>)
    ensures Complete(server, rules, base, archived, pages)
       <==> WholePass(server, base, archived, rules.maxPages, pages)
  {
    hide Answered, Answers;
    AnsweredOneByOne(server, base, archived, pages);
    if pages != [] {
      var init := pages[..|pages| - 1];
      assert forall i :: 0 <= i < |init| ==> init[i] == pages[i];
    }
  }

  // ----- Listed identities

  ghost predicate ListedAt(pages: seq<Page>, id: string) {
    exists i, j :: 0 <= i < |pages| && 0 <= j < |pages[i].entries| && pages[i].entries[j] == Some(id)
  }

  lemma {:induction false} PageIdsListed(entries: seq<Option<string>>, id: string)
    ensures id in PageIds(entries) <==> Some(id) in entries
  {
    if entries != [] {
      PageIdsListed(entries[..|entries| - 1], id);
      assert entries == entries[..|entries| - 1] + [entries[|entries| - 1]];
    }
  }

  lemma {:induction false} ListedIds(pages: seq<Page>, id: string)
    ensures id in Ids(pages) <==> ListedAt(pages, id)
  {
    if pages != [] {
      var init, last := pages[..|pages| - 1], pages[|pages| - 1];
      ListedIds(init, id);
      PageIdsListed(last.entries, id);
      ListedInEither(init, last, id);
      assert pages == init + [last];
    }
  }

  lemma ListedInEither(pages: seq<Page>, last: Page, id: string)
    ensures ListedAt(pages + [last], id) <==> ListedAt(pages, id) || Some(id) in last.entries
  {
    var more := pages + [last];
    assert more[|pages|] == last;
    assert forall i :: 0 <= i < |pages| ==> more[i] == pages[i];
    if ListedAt(pages, id) {
      var i, j :| 0 <= i < |pages| && 0 <= j < |pages[i].entries| && pages[i].entries[j] == Some(id);
      assert more[i].entries[j] == Some(id);
    }
    if Some(id) in last.entries {
      var j :| 0 <= j < |last.entries| && last.entries[j] == Some(id);
      assert more[|pages|].entries[j] == Some(id);
    }
  }

  // ----- The two listings

  predicate GoodEntry(entry: Option<string>) {
    entry.Some? && entry.value != "" && Text.ByteLength(entry.value) <= 256
  }

  ghost predicate GoodPage(page: Page) {
    |page.entries| <= 100 && forall i :: 0 <= i < |page.entries| ==> GoodEntry(page.entries[i])
  }

  lemma PrefixOfDistinct(a: seq<string>, b: seq<string>)
    requires Ordering.Distinct(a + b)
    ensures Ordering.Distinct(a)
  {
    DistinctPrefix(a, a + b);
  }

  /** The inventory is believed exactly if both passes are whole, every entry is an identity, and none repeats. */
  lemma InventoryIsBelieved(server: Server, targets: set<string>, a: seq<Page>, b: seq<Page>)
    ensures BelievableInventory(server, InventoryRules(targets), a, b)
       <==> && WholePass(server, 0, false, 128, a) && WholePass(server, |a|, true, 128, b)
            && (forall i :: 0 <= i < |a| ==> GoodPage(a[i])) && (forall i :: 0 <= i < |b| ==> GoodPage(b[i]))
            && Ordering.Distinct(Ids(a) + Ids(b))
  {
    hide Complete, WholePass, Ids, Ordering.Distinct, Text.ByteLength;
    var rules := InventoryRules(targets);
    CompletePass(server, rules, 0, false, a);
    CompletePass(server, rules, |a|, true, b);
    assert forall page :: PageAllowed(rules, page) <==> GoodPage(page);
    assert [] + Ids(a) == Ids(a);
    if Ordering.Distinct(Ids(a) + Ids(b)) {
      PrefixOfDistinct(Ids(a), Ids(b));
    }
  }

  ghost predicate DescendantPage(root: string, page: Page) {
    forall i :: 0 <= i < |page.entries| ==> page.entries[i].Some? && page.entries[i].value != root
  }

  /** So is the list of descendants, of which there may be at most 511 and none the root itself. */
  lemma DescendantsAreBelieved(server: Server, root: string, a: seq<Page>, b: seq<Page>)
    ensures BelievableInventory(server, DescendantRules(root), a, b)
       <==> && WholePass(server, 0, false, 32, a) && WholePass(server, |a|, true, 32, b)
            && (forall i :: 0 <= i < |a| ==> DescendantPage(root, a[i]))
            && (forall i :: 0 <= i < |b| ==> DescendantPage(root, b[i]))
            && Ordering.Distinct(Ids(a) + Ids(b)) && |Ids(a) + Ids(b)| <= 511
  {
    hide Complete, WholePass, Ids, Ordering.Distinct;
    var rules := DescendantRules(root);
    CompletePass(server, rules, 0, false, a);
    CompletePass(server, rules, |a|, true, b);
    assert forall page :: PageAllowed(rules, page) <==> DescendantPage(root, page);
    assert [] + Ids(a) == Ids(a);
    if Ordering.Distinct(Ids(a) + Ids(b)) {
      PrefixOfDistinct(Ids(a), Ids(b));
    }
  }
}
