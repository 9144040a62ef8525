/** The overlay looked at thread by thread: record order does not matter. */
module OverlayOrder {
  import opened Time
  import opened Options
  import opened Ordering
  import opened Dataset
  import opened Records
  import opened Ledger
  import opened Overlay
  import opened OverlayLaws

  // ----- One thread at a time

  lemma CallsOfExtend(thread: string, calls: seq<UsageCall>, c: UsageCall)
    ensures CallsOf(thread, calls + [c]) == CallsOf(thread, calls) + if c.thread == thread then [c] else []
  {
    assert (calls + [c])[..|calls|] == calls;
  }

  lemma {:induction false} LastAtInThread(calls: seq<UsageCall>, slot: Slot)
    ensures LastAt(calls, slot) == LastAt(CallsOf(slot.0, calls), slot)
  {
    if calls != [] {
      var init, c := calls[..|calls| - 1], calls[|calls| - 1];
      LastAtInThread(init, slot);
      if c.thread == slot.0 {
        LastAtExtend(CallsOf(slot.0, init), c, slot);
      }
    }
  }

  lemma {:induction false} AddCallsInThread(thread: string, calls: seq<UsageCall>, owner: string, saved: seq<UsageCall>,
                                            asOf: Instant)
    requires forall i :: 0 <= i < |saved| ==> saved[i].thread == owner
    ensures CallsOf(thread, AddCalls(calls, saved, asOf))
         == if thread == owner then AddCalls(CallsOf(thread, calls), saved, asOf) else CallsOf(thread, calls)
  {
    hide KeyOf;
    if saved != [] {
      var init, c := saved[..|saved| - 1], saved[|saved| - 1];
      AddCallsInThread(thread, calls, owner, init, asOf);
      var before := AddCalls(calls, init, asOf);
      LastAtInThread(before, SlotOf(c));
      CallsOfExtend(thread, before, c);
    }
  }

  /** The record of `thread` that the overlay considers, if there is one. */
  function RecordFor(records: seq<Record>, thread: string, asOf: Instant): Option<Record> {
    if records == [] then
      None
    else
      var r := records[|records| - 1];
      if r.capturedAt <= asOf && r.thread == thread then Some(r) else RecordFor(records[..|records| - 1], thread, asOf)
  }

  /** Distinct threads, and no record holds a call of another thread. */
  ghost predicate OneRecordPerThread(records: seq<Record>) {
    && DistinctThreads(records)
    && (forall i :: 0 <= i < |records| ==> OwnsItsCalls(records[i]))
  }

  ghost predicate OwnsItsCalls(r: Record) {
    forall j :: 0 <= j < |r.calls| ==> r.calls[j].thread == r.thread
  }

  lemma {:induction false} RecordForFacts(records: seq<Record>, thread: string, asOf: Instant)
    requires DistinctThreads(records)
    ensures forall r :: RecordFor(records, thread, asOf) == Some(r)
                        <==> r in records && r.thread == thread && r.capturedAt <= asOf
  {
    if records != [] {
      var init, r := records[..|records| - 1], records[|records| - 1];
      RecordForFacts(init, thread, asOf);
      assert records == init + [r];
      assert forall r' :: r' in init ==> r'.thread != r.thread;
    }
  }

  lemma {:induction false} AddRecordsInThread(thread: string, calls: seq<UsageCall>, records: seq<Record>,
                                              asOf: Instant)
    requires OneRecordPerThread(records)
    ensures
      var own := CallsOf(thread, calls);
      var r := RecordFor(records, thread, asOf);
      CallsOf(thread, AddRecords(calls, records, asOf)) == if r.Some? then AddCalls(own, r.value.calls, asOf) else own
  {
    hide CallsOf, AddCalls;
    if records != [] {
      var init, r := records[..|records| - 1], records[|records| - 1];
      AddRecordsInThread(thread, calls, init, asOf);
      RecordForFacts(init, thread, asOf);
      if r.capturedAt <= asOf {
        assert OwnsItsCalls(records[|records| - 1]);
        AddCallsInThread(thread, AddRecords(calls, init, asOf), r.thread, r.calls, asOf);
        if r.thread == thread {
          assert RecordFor(init, thread, asOf).None? by { NoEarlierRecord(records, thread, asOf); }
        }
      }
    }
  }

  lemma NoEarlierRecord(records: seq<Record>, thread: string, asOf: Instant)
    requires DistinctThreads(records) && records != [] && records[|records| - 1].thread == thread
    ensures RecordFor(records[..|records| - 1], thread, asOf).None?
  {
    var init := records[..|records| - 1];
    RecordForFacts(init, thread, asOf);
    assert forall r :: r in init ==> r.thread != thread;
    assert forall r :: RecordFor(init, thread, asOf) != Some(r);
  }

  // ----- Record order

  lemma {:induction false} TiesInThread(z: UsageCall, s: seq<UsageCall>)
    ensures Ties(TimeLe, z, s) == Ties(TimeLe, z, CallsOf(z.thread, s))
  {
    if s != [] {
      var init, c := s[..|s| - 1], s[|s| - 1];
      TiesInThread(z, init);
      if TimeLe(z, c) && TimeLe(c, z) {
        StringLeAntisymmetric(z.thread, c.thread);
      }
      TiesExtend(TimeLe, z, CallsOf(z.thread, init), c);
    }
  }

  /** With one record per thread, the final call sequence does not depend on the order of the records. */
  lemma OverlayIgnoresRecordOrder(d: Rollout, records: seq<Record>, reordered: seq<Record>, asOf: Instant)
    requires OneRecordPerThread(records) && OneRecordPerThread(reordered)
    requires multiset(records) == multiset(reordered)
    ensures Overlaid(d, records, asOf).calls == Overlaid(d, reordered, asOf).calls
  {
    hide CallsOf, AddRecords, OneRecordPerThread, OwnsItsCalls, RecordFor;
    var s, t := AddRecords(d.calls, records, asOf), AddRecords(d.calls, reordered, asOf);
    TimeLeIsTotalPreorder();
    SortFacts(TimeLe, s);
    SortFacts(TimeLe, t);
    forall z ensures Ties(TimeLe, z, Sort(TimeLe, s)) == Ties(TimeLe, z, Sort(TimeLe, t)) {
      TiesInThread(z, s);
      TiesInThread(z, t);
      AddRecordsInThread(z.thread, d.calls, records, asOf);
      AddRecordsInThread(z.thread, d.calls, reordered, asOf);
      SameRecordFor(records, reordered, z.thread, asOf);
    }
    SortedByTies(TimeLe, Sort(TimeLe, s), Sort(TimeLe, t));
  }

  lemma SameRecordFor(records: seq<Record>, reordered: seq<Record>, thread: string, asOf: Instant)
    requires OneRecordPerThread(records) && OneRecordPerThread(reordered)
    requires multiset(records) == multiset(reordered)
    ensures RecordFor(records, thread, asOf) == RecordFor(reordered, thread, asOf)
  {
    hide RecordFor, OwnsItsCalls;
    DistinctPermutation(records, reordered);
    RecordForFacts(records, thread, asOf);
    RecordForFacts(reordered, thread, asOf);
    var a, b := RecordFor(records, thread, asOf), RecordFor(reordered, thread, asOf);
    if a.Some? {
      assert a == Some(a.value);
    }
    if b.Some? {
      assert b == Some(b.value);
    }
  }
}
