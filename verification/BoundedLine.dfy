/**
 The bounded line reader (src/bounded_io.rs) and the app-server event loop built
 on it (src/app_server.rs): both depend on the bytes only, not on how they are
 cut into chunks.
 */
module BoundedLine {
  import opened Options

  type Byte = b: int | 0 <= b < 256

  const NEWLINE: Byte := 10
  const CARRIAGE_RETURN: Byte := 13

  datatype Kind = Line | TooLong | Eof

  // ----- The simple splitter

  /** The position of the first newline, or the length if there is none. */
  function FirstNewline(s: seq<Byte>): (k: nat)
    ensures k <= |s|
    ensures k < |s| ==> s[k] == NEWLINE
    ensures forall i :: 0 <= i < k ==> s[i] != NEWLINE
  {
    if s == [] || s[0] == NEWLINE then 0 else 1 + FirstNewline(s[1..])
  }

  predicate Terminated(s: seq<Byte>) {
    FirstNewline(s) < |s|
  }

  function StripReturn(s: seq<Byte>): seq<Byte> {
    if s != [] && s[|s| - 1] == CARRIAGE_RETURN then s[..|s| - 1] else s
  }

  /** The first record: up to the newline without one trailing return, or all that is left. */
  function Payload(s: seq<Byte>): seq<Byte> {
    if Terminated(s) then StripReturn(s[..FirstNewline(s)]) else s
  }

  /** What remains after the first record and its newline. */
  function Remaining(s: seq<Byte>): seq<Byte> {
    if Terminated(s) then s[FirstNewline(s) + 1..] else []
  }

  function KindOf(s: seq<Byte>, limit: nat): Kind {
    if s == [] then Eof else if |Payload(s)| > limit then TooLong else Line
  }

  function OutputOf(s: seq<Byte>, limit: nat): seq<Byte> {
    if KindOf(s, limit) == Line then Payload(s) else []
  }

  // ----- The streaming reader

  /** A byte source that may hand out its bytes in chunks of any size, and may end in an I/O error. */
  class ByteReader {
    var rest: seq<Byte>
    const fails: bool

    constructor (bytes: seq<Byte>, fails: bool)
      ensures rest == bytes && this.fails == fails
    {
      rest, this.fails := bytes, fails;
    }

    /** Some nonempty prefix of what is left; nothing at the end; an error if the source ends in one. */
    method FillBuf() returns (chunk: Option<seq<Byte>>)
      ensures rest == [] ==> chunk == if fails then None else Some([])
      ensures rest != [] ==> chunk.Some? && chunk.value != [] && chunk.value <= rest
    {
      if rest == [] {
        return if fails then None else Some([]);
      }
      var n :| 1 <= n <= |rest|;
      return Some(rest[..n]);
    }

    method Consume(n: nat)
      requires n <= |rest|
      modifies this
      ensures rest == old(rest)[n..]
    {
      rest := rest[n..];
    }
  }

  /** The reader's variables. */
  datatype Scan = Scan(output: seq<Byte>, sawBytes: bool, tooLong: bool, pendingReturn: bool)

  /**
   Their values after consuming `seen`, which holds no newline.  A final return is
   held back because it may still turn out to be part of the line end.
   */
  function ScanOf(seen: seq<Byte>, limit: nat): Scan {
    var committed := StripReturn(seen);
    Scan(if |committed| > limit then [] else committed,
         seen != [],
         |committed| > limit,
         seen != [] && seen[|seen| - 1] == CARRIAGE_RETURN)
  }

  ghost predicate NoNewline(s: seq<Byte>) {
    forall i :: 0 <= i < |s| ==> s[i] != NEWLINE
  }

  lemma {:induction false} NewlineAfter(seen: seq<Byte>, rest: seq<Byte>)
    requires NoNewline(seen)
    ensures rest != [] && rest[0] == NEWLINE ==> FirstNewline(seen + rest) == |seen|
    ensures rest == [] ==> FirstNewline(seen + rest) == |seen|
  {
    if seen == [] {
      assert seen + rest == rest;
    } else {
      NewlineAfter(seen[1..], rest);
      assert (seen + rest)[1..] == seen[1..] + rest;
    }
  }

  /** Appends one byte to the output unless the limit is reached, which discards everything. */
  method Push(output: seq<Byte>, tooLong: bool, b: Byte, limit: nat) returns (after: seq<Byte>, over: bool)
    requires |output| <= limit
    ensures tooLong ==> after == output && over
    ensures !tooLong && |output| < limit ==> after == output + [b] && !over
    ensures !tooLong && |output| >= limit ==> after == [] && over
  {
    after, over := output, tooLong;
    if !tooLong {
      if |output| < limit {
        after := output + [b];
      } else {
        after, over := [], true;
      }
    }
  }

  /** Consumes one byte that is not a newline. */
  method ScanByte(ghost seen: seq<Byte>, before: Scan, b: Byte, limit: nat) returns (after: Scan)
    requires before == ScanOf(seen, limit) && b != NEWLINE
    ensures after == ScanOf(seen + [b], limit)
  {
    ScanFacts(seen, limit);
    ScanNext(seen, b, limit);
    hide ScanOf;
    var output, tooLong := before.output, before.tooLong;
    if before.pendingReturn {
      output, tooLong := Push(output, tooLong, CARRIAGE_RETURN, limit);
    }
    assert tooLong == (|seen| > limit) && output == Kept(seen, limit);
    if b == CARRIAGE_RETURN {
      return Scan(output, true, tooLong, true);
    }
    output, tooLong := Push(output, tooLong, b, limit);
    return Scan(output, true, tooLong, false);
  }

  function Kept(s: seq<Byte>, limit: nat): seq<Byte> {
    if |s| > limit then [] else s
  }

  lemma ScanFacts(seen: seq<Byte>, limit: nat)
    ensures
      var scan, body := ScanOf(seen, limit), StripReturn(seen);
      && scan.output == Kept(body, limit) && scan.tooLong == (|body| > limit)
      && seen == if scan.pendingReturn then body + [CARRIAGE_RETURN] else body
  {
  }

  lemma ScanNext(seen: seq<Byte>, b: Byte, limit: nat)
    ensures ScanOf(seen + [b], limit)
         == if b == CARRIAGE_RETURN then Scan(Kept(seen, limit), true, |seen| > limit, true)
            else Scan(Kept(seen + [b], limit), true, |seen + [b]| > limit, false)
  {
    assert (seen + [b])[..|seen|] == seen;
  }

  /** Consumes one chunk up to its end or to the newline. */
  method ScanChunk(ghost seen: seq<Byte>, before: Scan, chunk: seq<Byte>, limit: nat)
    returns (consumed: nat, ended: bool, scan: Scan)
    requires before == ScanOf(seen, limit)
    ensures !ended ==> consumed == |chunk| && NoNewline(chunk) && scan == ScanOf(seen + chunk, limit)
    ensures ended ==> LineAt(chunk, consumed) && scan == ScanOf(seen + chunk[..consumed - 1], limit)
  {
    hide ScanOf;
    consumed, ended, scan := 0, false, before;
    assert seen + chunk[..0] == seen;
    while consumed < |chunk|
      invariant consumed <= |chunk| && NoNewline(chunk[..consumed])
      invariant scan == ScanOf(seen + chunk[..consumed], limit)
    {
      var b := chunk[consumed];
      assert seen + chunk[..consumed + 1] == seen + chunk[..consumed] + [b];
      consumed := consumed + 1;
      if b == NEWLINE {
        ended := true;
        return;
      }
      scan := ScanByte(seen + chunk[..consumed - 1], scan, b, limit);
    }
    assert chunk[..consumed] == chunk;
  }

  /** The byte before position `n` is the first newline of `chunk`. */
  ghost predicate LineAt(chunk: seq<Byte>, n: nat) {
    0 < n <= |chunk| && chunk[n - 1] == NEWLINE && NoNewline(chunk[..n - 1])
  }

  datatype ReadResult = Read(kind: Kind, output: seq<Byte>) | ReadError

  /**
   Reads one record.  Whatever the chunks are, the result is the splitter's, the
   source is advanced just past the newline, and the output never exceeds the limit.
   */
  method ReadBoundedLine(reader: ByteReader, limit: nat) returns (result: ReadResult)
    modifies reader
    ensures result.ReadError? <==> reader.fails && !Terminated(old(reader.rest))
    ensures result.Read? ==> result.kind == KindOf(old(reader.rest), limit)
    ensures result.Read? ==> result.output == OutputOf(old(reader.rest), limit)
    ensures reader.rest == Remaining(old(reader.rest))
    ensures result.Read? ==> |result.output| <= limit
  {
    hide ScanOf, Payload, Terminated, Remaining, KindOf, OutputOf, NoNewline;
    var scan := Scan([], false, false, false);
    ghost var seen: seq<Byte> := [];
    NothingScanned(limit);
    while true
      invariant old(reader.rest) == seen + reader.rest
      invariant NoNewline(seen) && scan == ScanOf(seen, limit)
      decreases |reader.rest|
    {
      var available := reader.FillBuf();
      if available.None? {
        StreamEnds(seen, limit);
        assert seen + reader.rest == seen;
        return ReadError;
      }
      if available.value == [] {
        StreamEnds(seen, limit);
        assert seen + reader.rest == seen;
        var output, tooLong := scan.output, scan.tooLong;
        if scan.pendingReturn && !tooLong {
          output, tooLong := Push(output, tooLong, CARRIAGE_RETURN, limit);
        }
        return Read(if !scan.sawBytes then Eof else if tooLong then TooLong else Line, output);
      }
      var chunk, consumed, ended := available.value, 0, false;
      consumed, ended, scan := ScanChunk(seen, scan, chunk, limit);
      ghost var left := reader.rest;
      reader.Consume(consumed);
      if ended {
        LineEnds(seen, chunk, left, consumed, limit);
        return Read(if scan.tooLong then TooLong else Line, scan.output);
      }
      assert seen + left == seen + chunk + left[|chunk|..];
      NoNewlineConcat(seen, chunk);
      seen := seen + chunk;
    }
  }

  lemma NothingScanned(limit: nat)
    ensures ScanOf([], limit) == Scan([], false, false, false) && NoNewline([])
  {
  }

  lemma NoNewlineConcat(s: seq<Byte>, t: seq<Byte>)
    requires NoNewline(s) && NoNewline(t)
    ensures NoNewline(s + t)
  {
  }

  /** The stream ends without a newline: a held-back return is content after all. */
  lemma StreamEnds(seen: seq<Byte>, limit: nat)
    requires NoNewline(seen)
    ensures !Terminated(seen) && Remaining(seen) == [] && Payload(seen) == seen
    ensures
      var scan := ScanOf(seen, limit);
      && |scan.output| <= limit
      && (seen == [] <==> !scan.sawBytes)
      && (!scan.pendingReturn ==> scan.tooLong == (|seen| > limit) && (!scan.tooLong ==> scan.output == seen))
      && (scan.pendingReturn && !scan.tooLong ==>
            seen == scan.output + [CARRIAGE_RETURN] && (|seen| > limit <==> |scan.output| >= limit))
      && (scan.pendingReturn && scan.tooLong ==> |seen| > limit)
      && (scan.tooLong ==> scan.output == [])
    ensures KindOf(seen, limit) == if seen == [] then Eof else if |seen| > limit then TooLong else Line
    ensures OutputOf(seen, limit) == if seen == [] || |seen| > limit then [] else seen
  {
    NewlineAfter(seen, []);
    assert seen + [] == seen;
    assert seen != [] ==> seen == seen[..|seen| - 1] + [seen[|seen| - 1]];
  }

  lemma LineEnds(seen: seq<Byte>, chunk: seq<Byte>, left: seq<Byte>, consumed: nat, limit: nat)
    requires NoNewline(seen) && chunk <= left && LineAt(chunk, consumed)
    ensures Terminated(seen + left) && Remaining(seen + left) == left[consumed..]
    ensures
      var scan := ScanOf(seen + chunk[..consumed - 1], limit);
      && KindOf(seen + left, limit) == (if scan.tooLong then TooLong else Line)
      && OutputOf(seen + left, limit) == scan.output
      && |scan.output| <= limit
  {
    hide StripReturn;
    var line, rest := seen + chunk[..consumed - 1], left[consumed - 1..];
    assert seen + left == line + rest;
    NewlineAfter(line, rest);
    assert (line + rest)[..|line|] == line;
    assert (line + rest)[|line| + 1..] == left[consumed..];
  }

  // ----- The app-server event loop

  datatype Event =
    | Message(frame: seq<Byte>) | MalformedFrame(frame: seq<Byte>) | OversizedFrame | ReadFailure | EndOfStream

  predicate IsAsciiWhitespace(b: Byte) {
    b == 9 || b == 10 || b == 12 || b == 13 || b == 32
  }

  predicate IsBlank(s: seq<Byte>) {
    forall i :: 0 <= i < |s| ==> IsAsciiWhitespace(s[i])
  }

  /** The events of one record; `parses` stands for the JSON parser. */
  function EventsOf(parses: seq<Byte> -> bool, payload: seq<Byte>, limit: nat): seq<Event> {
    if |payload| > limit then [OversizedFrame]
    else if IsBlank(payload) then []
    else if parses(payload) then [Message(payload)]
    else [MalformedFrame(payload)]
  }

  /** All events of a byte stream, defined on the stream alone. */
  function AllEvents(parses: seq<Byte> -> bool, s: seq<Byte>, fails: bool, limit: nat): seq<Event>
    decreases |s|
  {
    if fails && !Terminated(s) then [ReadFailure, EndOfStream]
    else if s == [] then [EndOfStream]
    else EventsOf(parses, Payload(s), limit) + AllEvents(parses, Remaining(s), fails, limit)
  }

  /** The channel to the consumer, which may hang up after any number of events. */
  class EventSender {
    var sent: seq<Event>
    const capacity: nat

    constructor (capacity: nat)
      ensures sent == [] && this.capacity == capacity
    {
      sent, this.capacity := [], capacity;
    }

    method Send(e: Event) returns (ok: bool)
      modifies this
      ensures ok == (|old(sent)| < capacity)
      ensures sent == if ok then old(sent) + [e] else old(sent)
    {
      ok := |sent| < capacity;
      if ok {
        sent := sent + [e];
      }
    }
  }

  function Prefix(s: seq<Event>, n: nat): seq<Event> {
    if |s| <= n then s else s[..n]
  }

  /** Reads until the end, an error or a hang-up; what is sent is a function of the bytes alone. */
  method ReadStdout(parses: seq<Byte> -> bool, reader: ByteReader, sender: EventSender, limit: nat)
    requires sender.sent == []
    modifies reader, sender
    ensures sender.sent == Prefix(AllEvents(parses, old(reader.rest), reader.fails, limit), sender.capacity)
  {
    hide AllEvents, EventsOf, KindOf, OutputOf, Terminated, Remaining, Payload, FrameEvents;
    ghost var all := AllEvents(parses, reader.rest, reader.fails, limit);
    assert [] + all == all;
    while true
      invariant |sender.sent| <= sender.capacity
      invariant sender.sent + AllEvents(parses, reader.rest, reader.fails, limit) == all
      decreases |reader.rest|
    {
      EventsUnfold(parses, reader.rest, reader.fails, limit);
      ghost var before, s := sender.sent, reader.rest;
      var result := ReadBoundedLine(reader, limit);
      if result.ReadError? {
        var ok := sender.Send(ReadFailure);
        ok := sender.Send(EndOfStream);
        return;
      }
      if result.kind == Eof {
        var _ := sender.Send(EndOfStream);
        return;
      }
      var events := FrameEvents(parses, result.kind, result.output);
      ghost var left := AllEvents(parses, reader.rest, reader.fails, limit);
      assert before + (events + left) == before + events + left == all;
      if events != [] {
        var ok := sender.Send(events[0]);
        if !ok {
          return;
        }
        assert events == [events[0]];
      }
    }
  }

  /** What is sent for one record that was read: nothing if it is blank. */
  function FrameEvents(parses: seq<Byte> -> bool, kind: Kind, output: seq<Byte>): (events: seq<Event>)
    ensures |events| <= 1
  {
    if kind == TooLong then [OversizedFrame]
    else if IsBlank(output) then []
    else if parses(output) then [Message(output)] else [MalformedFrame(output)]
  }

  lemma EventsUnfold(parses: seq<Byte> -> bool, s: seq<Byte>, fails: bool, limit: nat)
    ensures
      var kind, output, all := KindOf(s, limit), OutputOf(s, limit), AllEvents(parses, s, fails, limit);
      && (fails && !Terminated(s) ==> all == [ReadFailure, EndOfStream])
      && (!(fails && !Terminated(s)) && kind == Eof ==> all == [EndOfStream])
      && (!(fails && !Terminated(s)) && kind != Eof ==>
            && |Remaining(s)| < |s|
            && all == FrameEvents(parses, kind, output) + AllEvents(parses, Remaining(s), fails, limit))
  {
    hide FrameEvents, EventsOf, Payload, Remaining, Terminated, KindOf, OutputOf;
    NothingIsLast(s, limit);
    if !(fails && !Terminated(s)) && s != [] {
      RemainingIsLess(s);
      FrameIsPayload(parses, s, limit);
    }
  }

  lemma NothingIsLast(s: seq<Byte>, limit: nat)
    ensures KindOf(s, limit) == Eof <==> s == []
  {
    hide Payload;
  }

  lemma RemainingIsLess(s: seq<Byte>)
    requires s != []
    ensures |Remaining(s)| < |s|
  {
    hide FirstNewline;
  }

  lemma FrameIsPayload(parses: seq<Byte> -> bool, s: seq<Byte>, limit: nat)
    requires s != []
    ensures FrameEvents(parses, KindOf(s, limit), OutputOf(s, limit)) == EventsOf(parses, Payload(s), limit)
  {
    hide Payload, IsBlank;
  }

  lemma StripsOneReturn(line: seq<Byte>)
    ensures StripReturn(line) == line || StripReturn(line) + [CARRIAGE_RETURN] == line
    ensures NoNewline(line) ==> NoNewline(StripReturn(line))
  {
  }

  /** The records, their line ends and nothing else make up the stream. */
  lemma RecordsPartitionTheStream(s: seq<Byte>)
    requires s != []
    ensures |Remaining(s)| < |s|
    ensures Terminated(s) ==> s == s[..FirstNewline(s)] + [NEWLINE] + Remaining(s)
    ensures Terminated(s) ==>
              Payload(s) == s[..FirstNewline(s)] || Payload(s) + [CARRIAGE_RETURN] == s[..FirstNewline(s)]
    ensures NoNewline(Payload(s))
  {
    var k := FirstNewline(s);
    hide FirstNewline;
    if k < |s| {
      assert s == s[..k] + [s[k]] + s[k + 1..];
      StripsOneReturn(s[..k]);
    }
  }
}
