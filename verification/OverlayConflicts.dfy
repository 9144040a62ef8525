/**
 The warnings of the overlay: which saved calls are reported, and exactly when a
 second overlay reports the same ones again.
 */
module OverlayConflicts {
  import opened Time
  import opened Options
  import opened Saturating
  import opened Ordering
  import opened Tokens
  import opened Dataset
  import opened Records
  import opened Overlay
  import opened OverlayLaws

  /** A saved call that is looked up, with the thread of its record. */
  type Offer = (string, UsageCall)

  function CallOffers(thread: string, saved: seq<UsageCall>, asOf: Instant): seq<Offer> {
    if saved == [] then
      []
    else
      var init, c := CallOffers(thread, saved[..|saved| - 1], asOf), saved[|saved| - 1];
      if c.timestamp <= asOf then init + [(thread, c)] else init
  }

  /** All lookups of one overlay, in order. */
  function Offers(records: seq<Record>, asOf: Instant): seq<Offer> {
    if records == [] then
      []
    else
      var init, r := Offers(records[..|records| - 1], asOf), records[|records| - 1];
      if r.capturedAt <= asOf then init + CallOffers(r.thread, r.calls, asOf) else init
  }

  /** The slot of `c` is taken, and by a different call. */
  predicate Contradicts(calls: seq<UsageCall>, c: UsageCall) {
    var live := LastAt(calls, SlotOf(c));
    live.Some? && live.value != c
  }

  function Contradicted(calls: seq<UsageCall>, offers: seq<Offer>): seq<Offer> {
    if offers == [] then
      []
    else
      var init, o := Contradicted(calls, offers[..|offers| - 1]), offers[|offers| - 1];
      if Contradicts(calls, o.1) then init + [o] else init
  }

  function ThreadsOf(offers: seq<Offer>): seq<string> {
    seq(|offers|, i requires 0 <= i < |offers| => offers[i].0)
  }

  // ----- The warnings are the contradicted offers

  /** Once a slot is held, later lookups in it find the same call. */
  ghost predicate Settles(before: seq<UsageCall>, after: seq<UsageCall>) {
    forall slot :: LastAt(before, slot).Some? ==> LastAt(after, slot) == LastAt(before, slot)
  }

  lemma AddCallSettles(calls: seq<UsageCall>, c: UsageCall, asOf: Instant)
    ensures Settles(calls, AddCall(calls, c, asOf))
  {
    hide SlotOf;
    forall slot | LastAt(calls, slot).Some? ensures LastAt(AddCall(calls, c, asOf), slot) == LastAt(calls, slot) {
      LastAtExtend(calls, c, slot);
    }
  }

  lemma {:induction false} AddCallsSettles(calls: seq<UsageCall>, saved: seq<UsageCall>, asOf: Instant)
    ensures Settles(calls, AddCalls(calls, saved, asOf))
  {
    hide AddCall, LastAt;
    if saved != [] {
      AddCallsSettles(calls, saved[..|saved| - 1], asOf);
      AddCallSettles(AddCalls(calls, saved[..|saved| - 1], asOf), saved[|saved| - 1], asOf);
    }
  }

  lemma ContradictedConcat(calls: seq<UsageCall>, offers: seq<Offer>, o: Offer)
    ensures Contradicted(calls, offers + [o])
         == Contradicted(calls, offers) + if Contradicts(calls, o.1) then [o] else []
  {
    assert (offers + [o])[..|offers|] == offers;
  }

  lemma {:induction false} ContradictedJoins(calls: seq<UsageCall>, a: seq<Offer>, b: seq<Offer>)
    ensures Contradicted(calls, a + b) == Contradicted(calls, a) + Contradicted(calls, b)
  {
    hide Contradicts;
    if b == [] {
      assert a + b == a;
    } else {
      ContradictedJoins(calls, a, b[..|b| - 1]);
      assert (a + b)[..|a + b| - 1] == a + b[..|b| - 1];
    }
  }

  lemma ThreadsJoin(a: seq<Offer>, b: seq<Offer>)
    ensures ThreadsOf(a + b) == ThreadsOf(a) + ThreadsOf(b)
  {
  }

  /** A lookup on the way finds a contradiction exactly if the finished list holds one. */
  lemma SameContradiction(reached: seq<UsageCall>, all: seq<UsageCall>, c: UsageCall, asOf: Instant)
    requires c.timestamp <= asOf && Settles(AddCall(reached, c, asOf), all)
    ensures Contradicts(reached, c) <==> Contradicts(all, c)
  {
    hide SlotOf;
    AddCallSettles(reached, c, asOf);
    if LastAt(reached, SlotOf(c)).None? {
      LastAtExtend(reached, c, SlotOf(c));
    }
  }

  lemma {:induction false} ConflictsAreContradictions(before: seq<UsageCall>, all: seq<UsageCall>, thread: string,
                                                      saved: seq<UsageCall>, asOf: Instant)
    requires Settles(AddCalls(before, saved, asOf), all)
    ensures Conflicts(before, thread, saved, asOf) == ThreadsOf(Contradicted(all, CallOffers(thread, saved, asOf)))
  {
    hide SlotOf, LastAt, AddCall, Settles, Contradicted;
    if saved == [] {
      assert Contradicted(all, []) == [] by { NothingContradicted(all); }
    } else {
      var init, c := saved[..|saved| - 1], saved[|saved| - 1];
      var reached := AddCalls(before, init, asOf);
      AddCallSettles(reached, c, asOf);
      SettlesTransitive(reached, AddCall(reached, c, asOf), all);
      ConflictsAreContradictions(before, all, thread, init, asOf);
      if c.timestamp <= asOf {
        SameContradiction(reached, all, c, asOf);
        ContradictedConcat(all, CallOffers(thread, init, asOf), (thread, c));
        ThreadsJoin(Contradicted(all, CallOffers(thread, init, asOf)), [(thread, c)]);
      }
    }
  }

  lemma NothingContradicted(calls: seq<UsageCall>)
    ensures Contradicted(calls, []) == []
  {
  }

  lemma SettlesTransitive(a: seq<UsageCall>, b: seq<UsageCall>, c: seq<UsageCall>)
    requires Settles(a, b) && Settles(b, c)
    ensures Settles(a, c)
  {
    hide LastAt;
  }

  lemma {:induction false} WarningsAreContradictions(calls: seq<UsageCall>, all: seq<UsageCall>, records: seq<Record>,
                                                     asOf: Instant)
    requires Settles(AddRecords(calls, records, asOf), all)
    ensures AllConflicts(calls, records, asOf) == ThreadsOf(Contradicted(all, Offers(records, asOf)))
  {
    hide Conflicts, AddCalls, Settles, Contradicted, CallOffers;
    if records == [] {
      NothingContradicted(all);
    } else {
      var init, r := records[..|records| - 1], records[|records| - 1];
      var reached := AddRecords(calls, init, asOf);
      if r.capturedAt <= asOf {
        AddCallsSettles(reached, r.calls, asOf);
        SettlesTransitive(reached, AddCalls(reached, r.calls, asOf), all);
        ConflictsAreContradictions(reached, all, r.thread, r.calls, asOf);
        ContradictedJoins(all, Offers(init, asOf), CallOffers(r.thread, r.calls, asOf));
        ThreadsJoin(Contradicted(all, Offers(init, asOf)), Contradicted(all, CallOffers(r.thread, r.calls, asOf)));
      }
      WarningsAreContradictions(calls, all, init, asOf);
    }
  }

  lemma SettlesItself(calls: seq<UsageCall>)
    ensures Settles(calls, calls)
  {
  }

  // ----- Reports agree exactly if every lookup agrees

  lemma {:induction false} ContradictedMembers(calls: seq<UsageCall>, offers: seq<Offer>)
    ensures forall o :: o in Contradicted(calls, offers) <==> o in offers && Contradicts(calls, o.1)
  {
    hide Contradicts;
    if offers != [] {
      ContradictedMembers(calls, offers[..|offers| - 1]);
      assert offers == offers[..|offers| - 1] + [offers[|offers| - 1]];
    }
  }

  lemma {:induction false} SameLookupsSameReports(s: seq<UsageCall>, t: seq<UsageCall>, offers: seq<Offer>)
    requires forall o :: o in offers ==> (Contradicts(s, o.1) <==> Contradicts(t, o.1))
    ensures Contradicted(s, offers) == Contradicted(t, offers)
  {
    hide Contradicts;
    if offers != [] {
      var init, last := offers[..|offers| - 1], offers[|offers| - 1];
      assert forall o :: o in init ==> o in offers;
      SameLookupsSameReports(s, t, init);
      assert last in offers;
    }
  }

  lemma SameReportsExactly(s: seq<UsageCall>, t: seq<UsageCall>, offers: seq<Offer>)
    ensures Contradicted(s, offers) == Contradicted(t, offers) <==>
              forall o :: o in offers ==> (Contradicts(s, o.1) <==> Contradicts(t, o.1))
  {
    hide Contradicts, Contradicted;
    ContradictedMembers(s, offers);
    ContradictedMembers(t, offers);
    if forall o :: o in offers ==> (Contradicts(s, o.1) <==> Contradicts(t, o.1)) {
      SameLookupsSameReports(s, t, offers);
    }
  }

  // ----- The last call of a slot and its latest call

  /** The call with the latest time in the slot, the last one of them in the list. */
  function LatestAt(calls: seq<UsageCall>, slot: Slot): Option<UsageCall> {
    if calls == [] then
      None
    else
      var best, c := LatestAt(calls[..|calls| - 1], slot), calls[|calls| - 1];
      if SlotOf(c) == slot && (best.None? || best.value.timestamp <= c.timestamp) then Some(c) else best
  }

  lemma LatestAtExtend(calls: seq<UsageCall>, c: UsageCall, slot: Slot)
    ensures var best := LatestAt(calls, slot);
            LatestAt(calls + [c], slot) ==
              if SlotOf(c) == slot && (best.None? || best.value.timestamp <= c.timestamp) then Some(c) else best
  {
    assert (calls + [c])[..|calls|] == calls;
  }

  /** What inserting `c` into a list in time order does to the last call of a slot. */
  lemma {:induction false} LastAtOfInsert(s: seq<UsageCall>, c: UsageCall, slot: Slot)
    requires Sorted(TimeLe, s)
    ensures var best := LastAt(s, slot);
            LastAt(Insert(TimeLe, s, c), slot) ==
              if SlotOf(c) == slot && (best.None? || best.value.timestamp <= c.timestamp) then Some(c) else best
  {
    hide KeyOf, StringLe;
    if s == [] || TimeLe(s[|s| - 1], c) {
      LastAtExtend(s, c, slot);
      LastAtFacts(s, slot);
      if LastAt(s, slot).Some? {
        var i :| 0 <= i < |s| && s[i] == LastAt(s, slot).value;
        assert i == |s| - 1 || TimeLe(s[i], s[|s| - 1]);
      }
    } else {
      var init, last := s[..|s| - 1], s[|s| - 1];
      LastAtOfInsert(init, c, slot);
      LastAtExtend(Insert(TimeLe, init, c), last, slot);
      if SlotOf(last) == slot && SlotOf(c) == slot {
        assert last.thread == c.thread;
        StringLeTotal(c.thread, c.thread);
      }
    }
  }

  /** Sorting by time makes the latest call of each slot its last one. */
  lemma {:induction false} LastAfterSort(calls: seq<UsageCall>, slot: Slot)
    ensures LastAt(Sort(TimeLe, calls), slot) == LatestAt(calls, slot)
  {
    hide SlotOf, TimeLe, Insert, LastAt;
    TimeLeIsTotalPreorder();
    if calls == [] {
      LastAtFacts([], slot);
    } else {
      var init, c := calls[..|calls| - 1], calls[|calls| - 1];
      LastAfterSort(init, slot);
      SortFacts(TimeLe, init);
      LastAtOfInsert(Sort(TimeLe, init), c, slot);
    }
  }

  /** The overlay adds no call to a taken slot, and at most one to a free one. */
  lemma {:induction false} LatestAfterAdding(before: seq<UsageCall>, after: seq<UsageCall>, slot: Slot)
    requires Extends(before, after)
    ensures LastAt(before, slot).Some? ==>
              LatestAt(after, slot) == LatestAt(before, slot) && LastAt(after, slot) == LastAt(before, slot)
    ensures LastAt(before, slot).None? ==> LatestAt(after, slot) == LastAt(after, slot)
  {
    hide SlotOf;
    LastAtFacts(before, slot);
    if |after| == |before| {
      assert after == before;
      if LastAt(before, slot).None? {
        LatestOfNone(before, slot);
      }
    } else {
      var init, c := after[..|after| - 1], after[|after| - 1];
      assert after == init + [c];
      assert Extends(before, init) by {
        assert init[|before|..] == after[|before|..][..|init| - |before|];
      }
      LatestAfterAdding(before, init, slot);
      if SlotOf(c) == slot {
        assert !Holds(before, slot);
        assert forall i :: 0 <= i < |init| ==> SlotOf(init[i]) != slot by {
          forall i | 0 <= i < |init| ensures SlotOf(init[i]) != slot {
            if i < |before| {
              assert before[i] == init[i] && before[i] in before;
            } else {
              assert after[|before|..][i - |before|] == init[i];
              assert after[|before|..][|init| - |before|] == c;
            }
          }
        }
        LatestOfNone(init, slot);
        LastAtFacts(init, slot);
      }
    }
  }

  lemma {:induction false} LatestOfNone(calls: seq<UsageCall>, slot: Slot)
    requires forall i :: 0 <= i < |calls| ==> SlotOf(calls[i]) != slot
    ensures LatestAt(calls, slot) == None && LastAt(calls, slot) == None
  {
    hide SlotOf;
    if calls != [] {
      LatestOfNone(calls[..|calls| - 1], slot);
    }
  }

  // ----- The second overlay

  /** The last live call and the latest live call in the slot of `c` agree on whether `c` is contradicted. */
  predicate Steady(live: seq<UsageCall>, c: UsageCall) {
    LastAt(live, SlotOf(c)) == Some(c) <==> LatestAt(live, SlotOf(c)) == Some(c)
  }

  lemma SteadyExactly(d: Rollout, records: seq<Record>, asOf: Instant, c: UsageCall)
    requires Holds(AddRecords(d.calls, records, asOf), SlotOf(c))
    ensures var all := AddRecords(d.calls, records, asOf);
            (Contradicts(all, c) <==> Contradicts(Sort(TimeLe, all), c)) <==> Steady(d.calls, c)
  {
    hide AddRecords, SlotOf, Extends, Sort, LatestAt;
    var all, slot := AddRecords(d.calls, records, asOf), SlotOf(c);
    AddRecordsExtends(d.calls, records, asOf);
    LatestAfterAdding(d.calls, all, slot);
    LastAfterSort(all, slot);
    TimeLeIsTotalPreorder();
    SortFacts(TimeLe, all);
    HoldsIgnoresOrder(all, Sort(TimeLe, all), slot);
    LastAtFacts(all, slot);
    LastAtFacts(Sort(TimeLe, all), slot);
    LastAtFacts(d.calls, slot);
    if LastAt(d.calls, slot).None? {
      LatestOfNone(d.calls, slot);
    }
  }

  lemma {:induction false} OfferedByOffers(records: seq<Record>, asOf: Instant, o: Offer)
    requires o in Offers(records, asOf)
    ensures Offered(records, asOf, o.1)
  {
    if records != [] {
      var init, r := records[..|records| - 1], records[|records| - 1];
      if o in Offers(init, asOf) {
        OfferedByOffers(init, asOf, o);
        OfferedAgain(records, asOf, o.1);
      } else {
        CallOffersMembers(r.thread, r.calls, asOf, o);
        assert records[|records| - 1] == r;
      }
    }
  }

  lemma {:induction false} CallOffersMembers(thread: string, saved: seq<UsageCall>, asOf: Instant, o: Offer)
    requires o in CallOffers(thread, saved, asOf)
    ensures o.1 in saved && o.1.timestamp <= asOf
  {
    if saved != [] && o in CallOffers(thread, saved[..|saved| - 1], asOf) {
      CallOffersMembers(thread, saved[..|saved| - 1], asOf, o);
    }
  }

  function Reports(d: Rollout, records: seq<Record>, asOf: Instant): seq<Offer> {
    Contradicted(AddRecords(d.calls, records, asOf), Offers(records, asOf))
  }

  /** What an overlay reports: one warning and one skipped line for each contradicted offer. */
  lemma OverlayReports(d: Rollout, records: seq<Record>, asOf: Instant)
    ensures var after, reports := Overlaid(d, records, asOf), Reports(d, records, asOf);
            && after.warnings == d.warnings + ThreadsOf(reports)
            && after.skippedLines == Cap64(d.skippedLines + |reports|)
  {
    hide AllConflicts, AddRecords, AllTasks, AllTurns, AllInteractions, Touched, Sort, Contradicted, Offers,
         RetotalTasks, RetotalTurns;
    SettlesItself(AddRecords(d.calls, records, asOf));
    WarningsAreContradictions(d.calls, AddRecords(d.calls, records, asOf), records, asOf);
  }

  /**
   A second overlay reports exactly what the first reported if and only if, for every
   saved call looked up, the last live call in its slot and the latest one agree on it.
   */
  lemma SecondOverlayRepeatsConflicts(d: Rollout, records: seq<Record>, asOf: Instant)
    ensures
      var once := Overlaid(d, records, asOf);
      Reports(once, records, asOf) == Reports(d, records, asOf) <==>
        forall o :: o in Offers(records, asOf) ==> Steady(d.calls, o.1)
  {
    hide AllConflicts, AddRecords, AllTasks, AllTurns, AllInteractions, Touched, Sort, Contradicted, Offers, Steady,
         Contradicts, RetotalTasks, RetotalTurns, SlotOf, Holds, Extends, Offered;
    var once, all, offers := Overlaid(d, records, asOf), AddRecords(d.calls, records, asOf), Offers(records, asOf);
    OverlayIdempotentOnCalls(d, records, asOf);
    AddRecordsExtends(d.calls, records, asOf);
    forall o | o in offers
      ensures (Contradicts(all, o.1) <==> Contradicts(once.calls, o.1)) <==> Steady(d.calls, o.1)
    {
      OfferedByOffers(records, asOf, o);
      SteadyExactly(d, records, asOf, o.1);
    }
    SameReportsExactly(all, once.calls, offers);
  }

  /** With at most one live call in each slot, the second overlay warns as the first did. */
  lemma DistinctSlotsRepeatWarnings(d: Rollout, records: seq<Record>, asOf: Instant)
    requires DistinctSlots(d.calls)
    ensures
      var once := Overlaid(d, records, asOf);
      var twice, conflicts := Overlaid(once, records, asOf), AllConflicts(d.calls, records, asOf);
      && twice.warnings == once.warnings + conflicts
      && twice.skippedLines == Cap64(once.skippedLines + |conflicts|)
  {
    hide AllConflicts, AddRecords, Contradicted, Offers, Overlaid, SlotOf, DistinctSlots, LatestAt, LastAt;
    var once := Overlaid(d, records, asOf);
    forall o | o in Offers(records, asOf) ensures Steady(d.calls, o.1) {
      DistinctSlotsAreSteady(d.calls, SlotOf(o.1));
    }
    SecondOverlayRepeatsConflicts(d, records, asOf);
    OverlayReports(once, records, asOf);
    SettlesItself(AddRecords(d.calls, records, asOf));
    WarningsAreContradictions(d.calls, AddRecords(d.calls, records, asOf), records, asOf);
  }

  lemma {:induction false} DistinctSlotsAreSteady(calls: seq<UsageCall>, slot: Slot)
    requires DistinctSlots(calls)
    ensures LastAt(calls, slot) == LatestAt(calls, slot)
  {
    hide SlotOf;
    if calls != [] {
      var init, c := calls[..|calls| - 1], calls[|calls| - 1];
      DistinctSlotsAreSteady(init, slot);
      if SlotOf(c) == slot {
        forall i | 0 <= i < |init| ensures SlotOf(init[i]) != slot {
          assert calls[i] == init[i];
        }
        LatestOfNone(init, slot);
      }
    }
  }

  // ----- A second overlay that warns although the first did not

  function ExampleCall(time: Instant, total: U64): UsageCall {
    UsageCall(time, "t", None, Some("e"), true, None, None, NO_TOKENS.(total := total), true)
  }

  /** Two live calls with one event id, the later one first; the ledger saved the second. */
  lemma SecondOverlayMayWarn(d: Rollout, r: Record)
    requires d.calls == [ExampleCall(5, 1), ExampleCall(3, 2)]
    requires r.calls == [ExampleCall(3, 2)] && r.capturedAt <= 9
    ensures Reports(d, [r], 9) == []
    ensures Reports(Overlaid(d, [r], 9), [r], 9) != []
  {
    hide Overlaid, Sort, AllTasks, AllTurns;
    var x, y := ExampleCall(5, 1), ExampleCall(3, 2);
    var slot := SlotOf(y);
    assert d.calls[..1] == [x] && d.calls[..1][..0] == [];
    assert LastAt(d.calls, slot) == Some(y);
    assert r.calls[..0] == [];
    assert AddRecords(d.calls, [r], 9) == d.calls by { OneRecord(d.calls, r, y); }
    assert Offers([r], 9) == [(r.thread, y)] by { OneOffer(r, y); }
    ContradictedConcat(d.calls, [], (r.thread, y));
    assert [] + [(r.thread, y)] == [(r.thread, y)];
    assert !Steady(d.calls, y) by {
      LatestAtExtend([x], y, slot);
      assert d.calls == [x] + [y];
      LatestAtExtend([], x, slot);
      assert [] + [x] == [x];
    }
    assert (r.thread, y) in Offers([r], 9);
    SecondOverlayRepeatsConflicts(d, [r], 9);
  }

  lemma OneRecord(calls: seq<UsageCall>, r: Record, y: UsageCall)
    requires r.calls == [y] && r.capturedAt <= 9 && LastAt(calls, SlotOf(y)).Some?
    ensures AddRecords(calls, [r], 9) == calls
  {
    hide SlotOf, LastAt;
    assert [r][..0] == [] && r.calls[..0] == [];
    assert AddRecords(calls, [], 9) == calls;
    assert AddCalls(calls, [], 9) == calls;
  }

  lemma OneOffer(r: Record, y: UsageCall)
    requires r.calls == [y] && r.capturedAt <= 9 && y.timestamp <= 9
    ensures Offers([r], 9) == [(r.thread, y)]
  {
    assert [r][..0] == [] && r.calls[..0] == [];
    assert Offers([], 9) == [] && CallOffers(r.thread, [], 9) == [];
  }
}
