/**
 The rotating diagnostic log (src/diagnostic_log.rs): a live file and one backup,
 rotated by copy and truncate.  Every write to disk is recorded, so statements
 about crash points quantify over all intermediate states of the two files.
 */
module RotatingLog {
  import opened BoundedLine

  /** The two files as a crash would leave them. */
  datatype Disk = Disk(live: seq<Byte>, backup: seq<Byte>)

  function Flat(lines: seq<seq<Byte>>): seq<Byte> {
    if lines == [] then [] else Flat(lines[..|lines| - 1]) + lines[|lines| - 1]
  }

  lemma {:induction false} FlatConcat(s: seq<seq<Byte>>, t: seq<seq<Byte>>)
    ensures Flat(s + t) == Flat(s) + Flat(t)
  {
    hide Flat;
    if t == [] {
      NothingFlat();
      assert s + t == s;
    } else {
      var init, last := t[..|t| - 1], t[|t| - 1];
      FlatConcat(s, init);
      FlatExtend(s + init, last);
      FlatExtend(init, last);
      assert s + t == s + init + [last] && t == init + [last];
    }
  }

  lemma FlatExtend(lines: seq<seq<Byte>>, line: seq<Byte>)
    ensures Flat(lines + [line]) == Flat(lines) + line
  {
    assert (lines + [line])[..|lines|] == lines;
  }

  lemma NothingFlat()
    ensures Flat([]) == []
  {
  }

  predicate EndsLine(s: seq<Byte>) {
    s != [] && s[|s| - 1] == NEWLINE
  }

  /** A file that is empty or whose last record is finished. */
  predicate WholeLines(s: seq<Byte>) {
    s == [] || EndsLine(s)
  }

  lemma {:induction false} FlatOfLinesIsWhole(lines: seq<seq<Byte>>)
    requires forall i :: 0 <= i < |lines| ==> WholeLines(lines[i])
    ensures WholeLines(Flat(lines))
  {
    if lines != [] {
      FlatOfLinesIsWhole(lines[..|lines| - 1]);
    }
  }

  // ----- Opening

  /** Opening an event log finishes an unfinished last record; other logs start empty. */
  function Opened(content: seq<Byte>, keep: bool): seq<Byte> {
    if !keep then [] else if WholeLines(content) then content else content + [NEWLINE]
  }

  /** The next record starts on a line of its own. */
  lemma OpenedIsWhole(content: seq<Byte>, keep: bool)
    ensures WholeLines(Opened(content, keep))
    ensures keep ==> content <= Opened(content, keep)
  {
  }

  /** Opening keeps a file within its limit except when it is already full and unfinished. */
  lemma OpenedFitsExactly(content: seq<Byte>, limit: nat)
    requires |content| <= limit
    ensures |Opened(content, true)| <= limit <==> WholeLines(content) || |content| < limit
  {
  }

  lemma OpenedMayOverflow()
    ensures |Opened([65], true)| > 1 && |[65 as Byte]| <= 1
  {
    assert !WholeLines([65]);
  }

  /** A file that a crash cut short, but that was being filled with whole lines within the limit, can be reopened. */
  lemma CutFileFits(whole: seq<Byte>, cut: seq<Byte>, limit: nat)
    requires WholeLines(whole) && |whole| <= limit && cut <= whole
    ensures |Opened(cut, true)| <= limit
  {
    if |cut| == |whole| {
      assert cut == whole;
    }
  }

  lemma WholeFileFits(whole: seq<Byte>, limit: nat)
    requires WholeLines(whole)
    ensures Opened(whole, true) == whole
  {
  }

  lemma NothingFits()
    ensures Opened([], true) == []
  {
  }

  // ----- What a crash finds on disk

  /**
   The files at one moment, and where they stand in the history: the live file holds
   a part of history[cut..end]; the backup holds history[older..cut], or, while it is
   being copied, a part of what the live file holds.
   */
  datatype Snapshot = Snapshot(disk: Disk, older: nat, cut: nat, end: nat, copying: bool)

  ghost predicate Sound(history: seq<seq<Byte>>, s: Snapshot) {
    && s.older <= s.cut <= s.end <= |history|
    && s.disk.live <= Flat(history[s.cut..s.end])
    && if s.copying then s.disk.backup <= s.disk.live else s.disk.backup == Flat(history[s.older..s.cut])
  }

  /** Reopening after a crash at this moment gives files within the limit. */
  ghost predicate Fits(limit: nat, d: Disk) {
    |d.backup| <= limit && |Opened(d.live, true)| <= limit
  }

  lemma SoundLater(history: seq<seq<Byte>>, line: seq<Byte>, s: Snapshot)
    requires Sound(history, s)
    ensures Sound(history + [line], s)
  {
    var more := history + [line];
    assert more[s.cut..s.end] == history[s.cut..s.end];
    assert more[s.older..s.cut] == history[s.older..s.cut];
  }

  ghost predicate AllSound(history: seq<seq<Byte>>, trace: seq<Snapshot>) {
    forall i :: 0 <= i < |trace| ==> Sound(history, trace[i])
  }

  ghost predicate AllFit(limit: nat, trace: seq<Snapshot>) {
    forall i :: 0 <= i < |trace| ==> Fits(limit, trace[i].disk)
  }

  lemma AllSoundLater(history: seq<seq<Byte>>, line: seq<Byte>, trace: seq<Snapshot>)
    requires AllSound(history, trace)
    ensures AllSound(history + [line], trace)
  {
    hide Sound;
    forall i | 0 <= i < |trace| ensures Sound(history + [line], trace[i]) {
      SoundLater(history, line, trace[i]);
    }
  }

  /** The next byte of a file is written. */
  predicate AppendsByte(s: seq<Byte>, t: seq<Byte>) {
    |t| == |s| + 1 && s <= t
  }

  /** One effect on the disk: a byte is appended to one of the files, or one of them is emptied. */
  predicate OneWrite(a: Disk, b: Disk) {
    || (a.backup == b.backup && (AppendsByte(a.live, b.live) || b.live == []))
    || (a.live == b.live && (AppendsByte(a.backup, b.backup) || b.backup == []))
  }

  predicate OneWriteBefore(trace: seq<Snapshot>, i: int) {
    0 < i < |trace| ==> OneWrite(trace[i - 1].disk, trace[i].disk)
  }

  /** No state of the disk is left out: each recorded state is one write away from the one before. */
  ghost predicate Linked(trace: seq<Snapshot>) {
    forall i :: OneWriteBefore(trace, i)
  }

  lemma LinkedExtends(trace: seq<Snapshot>, s: Snapshot)
    requires trace != [] && Linked(trace) && OneWrite(trace[|trace| - 1].disk, s.disk)
    ensures Linked(trace + [s])
  {
    hide OneWrite;
    var more := trace + [s];
    forall i ensures OneWriteBefore(more, i) {
      if 0 < i < |trace| {
        assert OneWriteBefore(trace, i);
        assert more[i - 1] == trace[i - 1] && more[i] == trace[i];
      }
    }
  }

  /** All snapshots from `n` on have the old live content at the front of one of the files. */
  ghost predicate SurvivesSince(trace: seq<Snapshot>, n: nat, before: seq<Byte>) {
    forall i :: n <= i < |trace| ==> Survives(before, trace[i].disk)
  }

  /** All snapshots from `n` on extend the live content `before` under the same backup. */
  ghost predicate GrowsSince(trace: seq<Snapshot>, n: nat, before: seq<Byte>, backup: seq<Byte>) {
    forall i :: n <= i < |trace| ==> before <= trace[i].disk.live && trace[i].disk.backup == backup
  }

  ghost predicate CopiesSince(trace: seq<Snapshot>, n: nat, live: seq<Byte>) {
    forall i :: n <= i < |trace| ==> trace[i].disk.live == live && trace[i].copying
  }

  /** No record of the old live file is lost: it is still at the front of one of the files. */
  predicate Survives(before: seq<Byte>, d: Disk) {
    before <= d.live || before <= d.backup
  }

  // ----- Which moments leave a byte in both files

  /** How many bytes were written before block `k` of the history. */
  function Position(history: seq<seq<Byte>>, k: nat): nat
    requires k <= |history|
  {
    |Flat(history[..k])|
  }

  datatype Span = Span(from: nat, to: nat)

  predicate Within(span: Span, k: nat) {
    span.from <= k < span.to
  }

  /** The bytes of everything ever written that the live file holds. */
  ghost function LiveSpan(history: seq<seq<Byte>>, s: Snapshot): Span
    requires Sound(history, s)
  {
    Span(Position(history, s.cut), Position(history, s.cut) + |s.disk.live|)
  }

  ghost function BackupSpan(history: seq<seq<Byte>>, s: Snapshot): Span
    requires Sound(history, s)
  {
    var from := Position(history, if s.copying then s.cut else s.older);
    Span(from, from + |s.disk.backup|)
  }

  /** The rotation was copying, and had copied something. */
  predicate Repeats(s: Snapshot) {
    s.copying && s.disk.backup != []
  }

  lemma {:induction false} FlatSplit(history: seq<seq<Byte>>, k: nat)
    requires k <= |history|
    ensures Flat(history) == Flat(history[..k]) + Flat(history[k..])
  {
    FlatConcat(history[..k], history[k..]);
    assert history == history[..k] + history[k..];
  }

  lemma SegmentOfStream(history: seq<seq<Byte>>, from: nat, to: nat, part: seq<Byte>)
    requires from <= to <= |history| && part <= Flat(history[from..to])
    ensures var at := Position(history, from);
            at + |part| <= |Flat(history)| && Flat(history)[at..at + |part|] == part
  {
    hide Flat;
    FlatSplit(history, from);
    FlatSplit(history[from..], to - from);
    assert history[from..][..to - from] == history[from..to];
    var before, middle, rest := Flat(history[..from]), Flat(history[from..to]), Flat(history[from..][to - from..]);
    PieceOf(before, middle, rest, part);
    assert Flat(history) == before + (middle + rest);
  }

  lemma PieceOf(before: seq<Byte>, middle: seq<Byte>, rest: seq<Byte>, part: seq<Byte>)
    requires part <= middle
    ensures var all := before + (middle + rest);
            |before| + |part| <= |all| && all[|before|..|before| + |part|] == part
  {
    assert (middle + rest)[..|part|] == part;
  }

  lemma PrefixTransitive(a: seq<Byte>, b: seq<Byte>, c: seq<Byte>)
    requires a <= b <= c
    ensures a <= c
  {
  }

  /** The spans name where the contents of the two files come from. */
  lemma SpansAreContents(history: seq<seq<Byte>>, s: Snapshot)
    requires Sound(history, s)
    ensures var live, backup := LiveSpan(history, s), BackupSpan(history, s);
            && live.to <= |Flat(history)| && backup.to <= |Flat(history)|
            && Flat(history)[live.from..live.to] == s.disk.live
            && Flat(history)[backup.from..backup.to] == s.disk.backup
  {
    hide Flat, Position;
    SegmentOfStream(history, s.cut, s.end, s.disk.live);
    if s.copying {
      PrefixTransitive(s.disk.backup, s.disk.live, Flat(history[s.cut..s.end]));
      SegmentOfStream(history, s.cut, s.end, s.disk.backup);
    } else {
      SegmentOfStream(history, s.older, s.cut, s.disk.backup);
    }
  }

  /**
   A crash leaves a written byte in both files exactly if it hits the copying after its
   first byte; at every other moment backup and live file are one piece of the stream.
   */
  lemma RepeatsExactly(history: seq<seq<Byte>>, s: Snapshot)
    requires Sound(history, s)
    ensures (exists k :: Within(LiveSpan(history, s), k) && Within(BackupSpan(history, s), k)) <==> Repeats(s)
    ensures !Repeats(s) ==> s.disk.backup == [] || BackupSpan(history, s).to == LiveSpan(history, s).from
  {
    var live, backup := LiveSpan(history, s), BackupSpan(history, s);
    if s.copying {
      if s.disk.backup != [] {
        assert Within(live, live.from) && Within(backup, live.from);
      }
    } else {
      FlatSplit(history[..s.cut], s.older);
      assert history[..s.cut][..s.older] == history[..s.older];
      assert history[..s.cut][s.older..] == history[s.older..s.cut];
    }
  }

  /** After a crash at any other moment, the next process continues the same history. */
  lemma HistoryContinues(history: seq<seq<Byte>>, s: Snapshot)
    requires Sound(history, s) && !Repeats(s)
    ensures exists older :: 0 <= older <= s.cut && s.disk.backup == Flat(history[..s.cut][older..])
  {
    if s.copying {
      assert history[..s.cut][s.cut..] == [];
      assert s.disk.backup == Flat(history[..s.cut][s.cut..]);
    } else {
      assert history[..s.cut][s.older..] == history[s.older..s.cut];
      assert s.disk.backup == Flat(history[..s.cut][s.older..]);
    }
  }

  lemma TailIsWhole(history: seq<seq<Byte>>, from: nat, to: nat)
    requires 1 <= from <= to <= |history| && forall i :: 1 <= i < |history| ==> WholeLines(history[i])
    ensures WholeLines(Flat(history[from..to]))
  {
    hide WholeLines, Flat;
    FlatOfLinesIsWhole(history[from..to]);
  }

  // ----- The open log

  class RotatingFile {
    const limit: nat
    var live: seq<Byte>
    var backup: seq<Byte>
    var buffer: seq<Byte>
    var written: nat

    /**
     All blocks ever handed to the log: those of earlier processes, what the live file held when
     opened, each line.
     */
    ghost var history: seq<seq<Byte>>
    /** The backup holds history[older..cut], live file and buffer hold history[cut..]. */
    ghost var older: nat
    ghost var cut: nat
    /** Every state of the two files since the log was opened. */
    ghost var trace: seq<Snapshot>

    /** The first block may be a backup that an earlier crash left unfinished; all others are whole. */
    ghost predicate Valid()
      reads this
    {
      && older <= cut <= |history| && 1 <= cut
      && backup == Flat(history[older..cut])
      && live + buffer == Flat(history[cut..])
      && written == |live| + |buffer|
      && (forall i :: 1 <= i < |history| ==> WholeLines(history[i]))
      && trace != [] && trace[|trace| - 1].disk == Disk(live, backup)
      && AllSound(history, trace) && Linked(trace)
    }

    /**
     The files are within the limit now, and a crash at any moment so far left files that can be
     reopened within it.
     */
    ghost predicate Bounded()
      reads this
    {
      && |live| + |buffer| <= limit && |backup| <= limit
      && AllFit(limit, trace)
    }

    /** A log that was opened within its limit has stayed within it. */
    ghost predicate StaysWithin()
      reads this
    {
      StartsWithin() ==> Bounded()
    }

    ghost predicate StartsWithin()
      reads this
    {
      trace != [] && Fits(limit, trace[0].disk)
    }

    /** `past` is what is known of the blocks before the live file, at least the backup as it is. */
    constructor (content: seq<Byte>, existingBackup: seq<Byte>, keep: bool, limit: nat,
                 ghost past: seq<seq<Byte>>, ghost from: nat)
      requires limit > 0
      requires past != [] && from <= |past| && existingBackup == Flat(past[from..])
      requires forall i :: 1 <= i < |past| ==> WholeLines(past[i])
      ensures Valid() && this.limit == limit
      ensures live == Opened(content, keep) && backup == existingBackup && buffer == []
      ensures history == past + [Opened(content, keep)] && cut == |past| && older == from
      ensures |Opened(content, keep)| <= limit && |existingBackup| <= limit ==> Bounded()
      ensures |trace| == 1 && trace[0].disk == Disk(Opened(content, keep), existingBackup) && StaysWithin()
    {
      this.limit := limit;
      live, backup, buffer := Opened(content, keep), existingBackup, [];
      written := |Opened(content, keep)|;
      history, older, cut := past + [Opened(content, keep)], from, |past|;
      trace := [Snapshot(Disk(Opened(content, keep), existingBackup), from, |past|, |past| + 1, false)];
      new;
      OpenedIsWhole(content, keep);
      assert history[older..cut] == past[from..] && history[cut..] == [live] == history[cut..|history|];
      SingleBlock(live);
      assert live + [] == live;
    }

    ghost method Record(copying: bool)
      requires AllSound(history, trace) && Sound(history, Snapshot(Disk(live, backup), older, cut, |history|, copying))
      requires trace != [] && Linked(trace) && OneWrite(trace[|trace| - 1].disk, Disk(live, backup))
      modifies `trace
      ensures AllSound(history, trace) && Linked(trace)
      ensures trace == old(trace) + [Snapshot(Disk(live, backup), older, cut, |history|, copying)]
      ensures AllFit(limit, old(trace)) && Fits(limit, Disk(live, backup)) ==> AllFit(limit, trace)
    {
      hide Sound, Fits, Linked, OneWrite;
      ghost var s := Snapshot(Disk(live, backup), older, cut, |history|, copying);
      LinkedExtends(trace, s);
      trace := trace + [s];
    }

    /** Moves one buffered byte to the live file. */
    method SpillByte()
      requires Valid() && buffer != []
      modifies `live, `buffer, `trace
      ensures Valid() && live == old(live) + old(buffer)[..1] && buffer == old(buffer)[1..]
      ensures |trace| == |old(trace)| + 1 && old(trace) <= trace && trace[|old(trace)|].disk == Disk(live, backup)
      ensures old(Bounded()) ==> Bounded()
    {
      hide AllSound, AllFit, Flat, WholeLines, Opened, Linked;
      ghost var all := live + buffer;
      live, buffer := live + buffer[..1], buffer[1..];
      assert live + buffer == all;
      assert history[cut..] == history[cut..|history|];
      Record(false);
      TailIsWhole(history, cut, |history|);
      if old(Bounded()) {
        CutFileFits(all, live, limit);
      }
    }

    /** Moves `n` buffered bytes to the live file; a crash may cut the write at every byte. */
    method Spill(n: nat)
      requires Valid() && n <= |buffer|
      modifies `live, `buffer, `trace
      ensures Valid()
      ensures live == old(live) + old(buffer)[..n] && buffer == old(buffer)[n..]
      ensures old(trace) <= trace && GrowsSince(trace, |old(trace)|, old(live), backup)
      ensures old(Bounded()) ==> Bounded()
    {
      hide Valid, Bounded;
      var moved := 0;
      while moved < n
        invariant moved <= n
        invariant live == old(live) + old(buffer)[..moved] && buffer == old(buffer)[moved..]
        invariant Valid() && old(trace) <= trace && GrowsSince(trace, |old(trace)|, old(live), backup)
        invariant old(Bounded()) ==> Bounded()
        decreases n - moved
      {
        SpillByte();
        moved := moved + 1;
      }
    }

    /** Makes the buffered bytes visible in the live file. */
    method Flush()
      requires Valid()
      modifies `live, `buffer, `trace
      ensures Valid()
      ensures live == old(live) + old(buffer) && buffer == []
      ensures old(trace) <= trace && GrowsSince(trace, |old(trace)|, old(live), backup)
      ensures old(Bounded()) ==> Bounded()
      ensures old(StaysWithin()) ==> StaysWithin()
    {
      assert trace != [];
      hide Valid, Bounded, GrowsSince;
      Spill(|buffer|);
    }

    /** Truncates the backup and fills it from the live file; a crash may cut the copy at every byte. */
    method CopyToBackup()
      requires buffer == [] && older <= cut <= |history| && live == Flat(history[cut..]) && AllSound(history, trace)
      requires trace != [] && trace[|trace| - 1].disk == Disk(live, backup) && Linked(trace)
      modifies `backup, `trace
      ensures backup == live && AllSound(history, trace)
      ensures old(trace) < trace && trace[|trace| - 1].disk == Disk(live, backup) && Linked(trace)
      ensures CopiesSince(trace, |old(trace)|, live) && trace[|trace| - 1].copying
      ensures AllFit(limit, old(trace)) && |Opened(live, true)| <= limit && |live| <= limit ==> AllFit(limit, trace)
    {
      hide AllSound, AllFit, Flat, Opened, Linked;
      assert history[cut..] == history[cut..|history|];
      backup := [];
      Record(true);
      var copied := 0;
      while copied < |live|
        invariant copied <= |live| && backup == live[..copied]
        invariant old(trace) < trace && AllSound(history, trace) && CopiesSince(trace, |old(trace)|, live)
        invariant trace[|trace| - 1].disk == Disk(live, backup) && Linked(trace)
        invariant AllFit(limit, old(trace)) && |Opened(live, true)| <= limit && |live| <= limit ==> AllFit(limit, trace)
      {
        backup, copied := backup + [live[copied]], copied + 1;
        Record(true);
      }
      assert live[..|live|] == live;
    }

    /** Backup and live file hold the same whole lines, and nothing is buffered. */
    ghost predicate Copied()
      reads this
    {
      && older <= cut <= |history| && 1 <= cut && buffer == []
      && backup == live == Flat(history[cut..])
      && (forall i :: 1 <= i < |history| ==> WholeLines(history[i]))
      && trace != [] && trace[|trace| - 1].disk == Disk(live, backup)
      && AllSound(history, trace) && Linked(trace)
    }

    /** Empties the live file once the backup holds all of it. */
    method EmptyLive()
      requires Copied()
      modifies `live, `written, `older, `cut, `trace
      ensures Valid()
      ensures live == [] && written == 0 && cut == |history| && older == old(cut)
      ensures |trace| == |old(trace)| + 1 && old(trace) <= trace && trace[|old(trace)|].disk == Disk([], backup)
      ensures AllFit(limit, old(trace)) && |backup| <= limit ==> AllFit(limit, trace)
    {
      hide AllSound, AllFit, Linked, WholeLines, Flat;
      live := [];
      written := 0;
      older, cut := cut, |history|;
      assert history[older..cut] == history[older..] && history[cut..] == [] == history[cut..|history|];
      NothingFlat();
      NothingFits();
      Record(false);
    }

    /** Copies the live file over the backup, then empties the live file. */
    method Rotate()
      requires Valid()
      modifies this
      ensures Valid() && history == old(history)
      ensures live == [] && buffer == [] && backup == old(live) + old(buffer) && written == 0
      ensures cut == |history| && older == old(cut)
      ensures old(trace) <= trace && SurvivesSince(trace, |old(trace)|, old(live))
      ensures old(live) + old(buffer) != [] ==> exists i :: |old(trace)| <= i < |trace| && Repeats(trace[i])
      ensures old(Bounded()) ==> Bounded()
      ensures old(StaysWithin()) ==> StaysWithin()
    {
      hide AllSound, AllFit, GrowsSince, CopiesSince, SurvivesSince, Linked, WholeLines, Opened, Flat;
      Flush();
      ghost var flushed := trace;
      assert live + [] == live && history[cut..] == history[cut..|history|];
      TailIsWhole(history, cut, |history|);
      WholeFileFits(live, limit);
      CopyToBackup();
      ghost var copied, all := trace, live;
      assert all != [] ==> Repeats(copied[|copied| - 1]);
      EmptyLive();
      RotationSurvives(old(trace), flushed, copied, trace, old(live), all, old(backup));
      assert trace[|copied| - 1] == copied[|copied| - 1];
    }

    /**
     Appends one line, rotating first when it would not fit; refuses a line longer than
     the limit.  Some of the buffered bytes may reach the live file at once.
     */
    method WriteLine(line: seq<Byte>) returns (ok: bool)
      requires Valid() && EndsLine(line)
      modifies this
      ensures Valid()
      ensures ok == (|line| <= limit)
      ensures !ok ==> live == old(live) && backup == old(backup) && buffer == old(buffer) && history == old(history)
      ensures ok ==> history == old(history) + [line]
      ensures old(trace) <= trace && SurvivesSince(trace, |old(trace)|, old(live))
      ensures old(Bounded()) ==> Bounded()
      ensures old(StaysWithin()) ==> StaysWithin()
      ensures ok && |old(live)| + |old(buffer)| <= limit ==> |live| + |buffer| <= limit
    {
      ok := |line| <= limit;
      if !ok {
        return;
      }
      hide Valid, AllSound, AllFit, Linked;
      if written > 0 && written + |line| > limit {
        Rotate();
      }
      ghost var n, start := |trace|, live;
      Append(line);
      assert GrowsSince(trace, n, start, backup);
    }

    method Append(line: seq<Byte>)
      requires Valid() && EndsLine(line)
      modifies `live, `buffer, `written, `history, `trace
      ensures Valid() && history == old(history) + [line]
      ensures live + buffer == old(live) + old(buffer) + line
      ensures old(trace) <= trace && GrowsSince(trace, |old(trace)|, old(live), backup)
      ensures old(Bounded()) && |old(live)| + |old(buffer)| + |line| <= limit ==> Bounded()
    {
      hide Valid, Bounded, GrowsSince;
      Buffer(line);
      var n :| 0 <= n <= |buffer|;
      Spill(n);
      assert live + buffer == old(live) + old(buffer) + line;
    }

    method Buffer(line: seq<Byte>)
      requires Valid() && EndsLine(line)
      modifies `buffer, `written, `history
      ensures Valid() && buffer == old(buffer) + line && history == old(history) + [line]
      ensures old(Bounded()) && |old(live)| + |old(buffer)| + |line| <= limit ==> Bounded()
    {
      hide AllSound, AllFit, Flat, Linked;
      buffer := buffer + line;
      written := written + |line|;
      ghost var before := history;
      history := history + [line];
      assert history[older..cut] == before[older..cut];
      assert history[cut..] == before[cut..] + [line];
      FlatExtend(before[cut..], line);
      assert live + buffer == live + old(buffer) + line;
      AllSoundLater(before, line, trace);
    }

    /** Writes any number of lines; those that are too long are refused. */
    method WriteLines(lines: seq<seq<Byte>>)
      requires Valid() && Bounded()
      requires forall i :: 0 <= i < |lines| ==> EndsLine(lines[i])
      modifies this
      ensures Valid() && Bounded() && old(trace) <= trace
      ensures history == old(history) + Fitting(lines, limit)
    {
      hide Valid, Bounded;
      for i := 0 to |lines|
        invariant Valid() && Bounded() && old(trace) <= trace
        invariant history == old(history) + Fitting(lines[..i], limit)
      {
        assert lines[..i + 1][..i] == lines[..i];
        var _ := WriteLine(lines[i]);
      }
      assert lines[..|lines|] == lines;
    }
  }

  lemma RotationSurvives(start: seq<Snapshot>, flushed: seq<Snapshot>, copied: seq<Snapshot>, end: seq<Snapshot>,
                         before: seq<Byte>, all: seq<Byte>, backup: seq<Byte>)
    requires start <= flushed <= copied && |end| == |copied| + 1 && copied <= end && before <= all
    requires GrowsSince(flushed, |start|, before, backup) && CopiesSince(copied, |flushed|, all)
    requires end[|copied|].disk.backup == all
    ensures SurvivesSince(end, |start|, before)
  {
    forall i | |start| <= i < |end| ensures Survives(before, end[i].disk) {
      if i < |flushed| {
        assert end[i] == copied[i] == flushed[i];
      } else if i < |copied| {
        assert end[i] == copied[i];
      }
    }
  }

  /** The lines that fit into an empty file. */
  function Fitting(lines: seq<seq<Byte>>, limit: nat): seq<seq<Byte>> {
    if lines == [] then
      []
    else
      Fitting(lines[..|lines| - 1], limit) + if |lines[|lines| - 1]| <= limit then [lines[|lines| - 1]] else []
  }

  lemma SingleBlock(s: seq<Byte>)
    ensures Flat([s]) == s
  {
    assert [s][..0] == [];
    assert Flat([]) + s == s;
  }

  /**
   Backup followed by live file and buffer are the last blocks of everything ever
   written, in order; only a backup taken over from a crash may be unfinished.
   */
  lemma FilesAreSuffixOfHistory(f: RotatingFile)
    requires f.Valid()
    ensures f.backup + f.live + f.buffer == Flat(f.history[f.older..])
    ensures WholeLines(f.live + f.buffer) && (f.older >= 1 ==> WholeLines(f.backup))
  {
    hide Flat, WholeLines, AllSound, Linked;
    var older, cut := f.history[f.older..f.cut], f.history[f.cut..];
    assert f.history[f.older..] == older + cut;
    FlatConcat(older, cut);
    if f.older >= 1 {
      TailIsWhole(f.history, f.older, f.cut);
    }
    TailIsWhole(f.history, f.cut, |f.history|);
    assert f.history[f.cut..|f.history|] == cut;
    assert f.backup + (f.live + f.buffer) == f.backup + f.live + f.buffer;
  }

  /** A crash at any moment leaves files that reopen within the limit and with a finished last line. */
  lemma CrashCanBeReopened(f: RotatingFile, i: nat)
    requires f.Valid() && f.Bounded() && i < |f.trace|
    ensures var d := f.trace[i].disk;
            |d.backup| <= f.limit && |Opened(d.live, true)| <= f.limit && WholeLines(Opened(d.live, true))
  {
    assert Fits(f.limit, f.trace[i].disk);
    OpenedIsWhole(f.trace[i].disk.live, true);
  }

  // ----- Process after process

  /** `later` was opened as an event log on the files that a crash of `f` left at some moment. */
  ghost predicate OpenedAfterCrash(f: RotatingFile, later: RotatingFile)
    reads f, later
  {
    && later.limit == f.limit && f.trace != [] && later.trace != []
    && exists i :: 0 <= i < |f.trace| && ReopensAs(f.trace[i].disk, later.trace[0].disk)
  }

  predicate ReopensAs(left: Disk, start: Disk) {
    start == Disk(Opened(left.live, true), left.backup)
  }

  /**
   Any number of processes, each cut at any moment and followed by the next: if the first
   was opened within the limit, so is every state of the disk in every one of them.
   */
  lemma {:induction false} ProcessesStayWithin(logs: seq<RotatingFile>, n: nat)
    requires n < |logs| && forall k :: 0 <= k < |logs| ==> logs[k].Valid() && logs[k].StaysWithin()
    requires forall k :: 0 < k < |logs| ==> OpenedAfterCrash(logs[k - 1], logs[k])
    requires logs[0].StartsWithin()
    ensures logs[n].Bounded()
  {
    hide AllSound, Linked, Flat;
    if n > 0 {
      ProcessesStayWithin(logs, n - 1);
      var f, later := logs[n - 1], logs[n];
      assert OpenedAfterCrash(logs[n - 1], logs[n]);
      var i :| 0 <= i < |f.trace| && ReopensAs(f.trace[i].disk, later.trace[0].disk);
      assert Fits(f.limit, f.trace[i].disk);
      OpenedIsWhole(f.trace[i].disk.live, true);
    }
  }
}
