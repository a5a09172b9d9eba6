/** Tailing a runner's event log: complete lines past an offset, one chunk at a time. */
module Ingest {
  import opened Wrappers
  import opened Seqs
  import opened Octets
  import opened Text
  import opened Scope

  const NEWLINE: byte := 10
  const TAIL_CHUNK: nat := 1_048_576

  datatype JobRef = JobRef(ts: int, repo: string, runId: int, runAttempt: int, job: string)
  datatype HookEvent = Started(job: JobRef) | Completed(job: JobRef)

  /** Decoding a line as an event; the empty line is never one. */
  type LineDecoder = d: Bytes -> Option<HookEvent> | d([]) == None witness NoEvents

  function NoEvents(line: Bytes): Option<HookEvent> {
    None
  }

  /** What opening and reading a log found; `len` is its length when opened. */
  datatype LogRead = Missing | SeekFailed(len: nat) | ReadFailed(len: nat) | Log(len: nat, content: Bytes)

  // ---------------------------------------------------------------- the code

  /** Anything that is not an event for one of `owner`'s repositories yields none. */
  function ParseEventLine(decode: LineDecoder, owner: string, line: Bytes): (r: Option<HookEvent>)
    ensures r.Some? ==> IsRepoOf(r.value.job.repo, owner)
  {
    match decode(line)
    case None => None
    case Some(e) => if IsRepoOf(e.job.repo, owner) then Some(e) else None
  }

  function EventsOf(decode: LineDecoder, owner: string, lines: seq<Bytes>): seq<HookEvent> {
    if lines == [] then []
    else
      var first := ParseEventLine(decode, owner, lines[0]);
      (if first.Some? then [first.value] else []) + EventsOf(decode, owner, lines[1..])
  }

  /** The events of some bytes: their lines, decoded in order. */
  function Events(decode: LineDecoder, owner: string, bytes: Bytes): seq<HookEvent> {
    EventsOf(decode, owner, SplitAll(bytes, NEWLINE))
  }

  /** `rposition`: just past the last newline, or 0. */
  function PastLastNewline(buf: Bytes): nat {
    if buf == [] then 0 else if buf[|buf| - 1] == NEWLINE then |buf| else PastLastNewline(buf[..|buf| - 1])
  }

  function Chunk(content: Bytes, start: nat): Bytes {
    if start > |content| then []
    else if start + TAIL_CHUNK <= |content| then content[start..start + TAIL_CHUNK]
    else content[start..]
  }

  /** How much of a chunk one tick consumes. */
  function Consumed(buf: Bytes): nat {
    if PastLastNewline(buf) > 0 then PastLastNewline(buf) else if |buf| == TAIL_CHUNK then |buf| else 0
  }

  function TailEvents(decode: LineDecoder, owner: string, log: LogRead, offset: nat): (seq<HookEvent>, nat) {
    match log
    case Missing => ([], offset)
    case SeekFailed(len) => ([], if len < offset then 0 else offset)
    case ReadFailed(len) => ([], if len < offset then 0 else offset)
    case Log(len, content) =>
      var start := if len < offset then 0 else offset;
      var buf := Chunk(content, start);
      PastLastNewlineIs(buf);
      (Events(decode, owner, buf[..Consumed(buf)]), start + Consumed(buf))
  }

  // ------------------------------------------------------------------- lines

  predicate EndsLine(bytes: Bytes) {
    bytes == [] || bytes[|bytes| - 1] == NEWLINE
  }

  /** `n` lies between two lines of `content`. */
  predicate IsBoundary(content: Bytes, n: nat) {
    n <= |content| && EndsLine(content[..n])
  }

  lemma {:induction false} PastLastNewlineIs(buf: Bytes)
    ensures var n := PastLastNewline(buf);
            && n <= |buf| && (n > 0 ==> buf[n - 1] == NEWLINE)
            && forall i :: n <= i < |buf| ==> buf[i] != NEWLINE
  {
    if buf != [] && buf[|buf| - 1] != NEWLINE {
      PastLastNewlineIs(buf[..|buf| - 1]);
    }
  }

  lemma {:induction false} EventsOfConcat(decode: LineDecoder, owner: string, a: seq<Bytes>, b: seq<Bytes>)
    ensures EventsOf(decode, owner, a + b) == EventsOf(decode, owner, a) + EventsOf(decode, owner, b)
  {
    if a == [] {
      assert a + b == b;
    } else {
      assert (a + b)[1..] == a[1..] + b && (a + b)[0] == a[0];
      EventsOfConcat(decode, owner, a[1..], b);
      var first := ParseEventLine(decode, owner, a[0]);
      Regroup(if first.Some? then [first.value] else [], EventsOf(decode, owner, a[1..]), EventsOf(decode, owner, b));
    }
  }

  /** The line says an event of one of the owner's repositories. */
  predicate Tells(decode: LineDecoder, owner: string, line: Bytes, e: HookEvent) {
    decode(line) == Some(e) && IsRepoOf(e.job.repo, owner)
  }

  /** `from[i]` is the line event `i` comes from: every line that tells one is there, in order, once. */
  ghost predicate AreTold(decode: LineDecoder, owner: string, lines: seq<Bytes>, events: seq<HookEvent>,
                          from: seq<nat>) {
    && |from| == |events|
    && (forall i :: 0 <= i < |from| ==> from[i] < |lines| && Tells(decode, owner, lines[from[i]], events[i]))
    && (forall i, j :: 0 <= i < j < |from| ==> from[i] < from[j])
    && forall n: nat, e :: n < |lines| && Tells(decode, owner, lines[n], e) ==> n in from
  }

  /** Every event some line tells is handed on, once for each such line, in the lines' order; and nothing else. */
  lemma {:induction false} EveryLineIsTold(decode: LineDecoder, owner: string, lines: seq<Bytes>)
    returns (from: seq<nat>)
    ensures AreTold(decode, owner, lines, EventsOf(decode, owner, lines), from)
  {
    if lines == [] {
      from := [];
    } else {
      var front, last := lines[..|lines| - 1], lines[|lines| - 1];
      assert lines == front + [last];
      EventsOfConcat(decode, owner, front, [last]);
      OneLineTells(decode, owner, last);
      from := EveryLineIsTold(decode, owner, front);
      var told := EventsOf(decode, owner, front);
      if e :| Tells(decode, owner, last, e) {
        from := from + [|front|];
        assert EventsOf(decode, owner, lines) == told + [e];
      } else {
        assert EventsOf(decode, owner, lines) == told;
      }
    }
  }

  lemma OneLineTells(decode: LineDecoder, owner: string, line: Bytes)
    ensures forall e :: Tells(decode, owner, line, e) ==> EventsOf(decode, owner, [line]) == [e]
    ensures (forall e :: !Tells(decode, owner, line, e)) ==> EventsOf(decode, owner, [line]) == []
  {
    assert [line][1..] == [];
    assert EventsOf(decode, owner, [line][1..]) == [];
    if decode(line).Some? && IsRepoOf(decode(line).value.job.repo, owner) {
      assert Tells(decode, owner, line, decode(line).value);
    }
  }

  lemma OneLine(decode: LineDecoder, owner: string, line: Bytes)
    requires NEWLINE !in line
    ensures var event := ParseEventLine(decode, owner, line);
            Events(decode, owner, line) == if event.Some? then [event.value] else []
  {
    var lines := [line];
    assert SplitAll(line, NEWLINE) == lines && lines[1..] == [];
    assert EventsOf(decode, owner, lines[1..]) == [];
  }

  lemma NoEventsInNothing(decode: LineDecoder, owner: string)
    ensures Events(decode, owner, []) == []
  {
    OneLine(decode, owner, []);
  }

  /** The events of two runs of bytes and the newline between them. */
  lemma EventsAcrossNewline(decode: LineDecoder, owner: string, a: Bytes, b: Bytes)
    ensures Events(decode, owner, a + [NEWLINE] + b) == Events(decode, owner, a) + Events(decode, owner, b)
  {
    SplitAllConcat(a, NEWLINE, b);
    EventsOfConcat(decode, owner, SplitAll(a, NEWLINE), SplitAll(b, NEWLINE));
  }

  lemma WithoutNewline(a: Bytes, b: Bytes)
    requires a != [] && EndsLine(a)
    ensures a == a[..|a| - 1] + [NEWLINE] + [] && a + b == a[..|a| - 1] + [NEWLINE] + b
  {
  }

  /** Cutting at a line's end loses and invents no event. */
  lemma EventsConcat(decode: LineDecoder, owner: string, a: Bytes, b: Bytes)
    requires EndsLine(a)
    ensures Events(decode, owner, a + b) == Events(decode, owner, a) + Events(decode, owner, b)
  {
    NoEventsInNothing(decode, owner);
    if a == [] {
      assert a + b == b;
    } else {
      WithoutNewline(a, b);
      EventsAcrossNewline(decode, owner, a[..|a| - 1], []);
      EventsAcrossNewline(decode, owner, a[..|a| - 1], b);
    }
  }

  // ---------------------------------------------------------------- one tick

  /** Some whole chunk of the log has no newline: the hypothesis the rest excludes. */
  ghost predicate Oversized(content: Bytes) {
    exists i: nat :: IsPlainChunk(content, i)
  }

  predicate IsPlainChunk(content: Bytes, i: nat) {
    i + TAIL_CHUNK <= |content| && NEWLINE !in content[i..i + TAIL_CHUNK]
  }

  /** Where a tick from `start` leaves off, on a log at least that long. */
  function Next(content: Bytes, start: nat): nat
    requires start <= |content|
  {
    start + Consumed(Chunk(content, start))
  }

  /** The window of bytes a tick reads. */
  function WindowEnd(content: Bytes, start: nat): nat {
    if start + TAIL_CHUNK <= |content| then start + TAIL_CHUNK else |content|
  }

  /** `Next` by position: just past the window's last newline, or its end if full of one line, or back. */
  lemma NextIs(content: Bytes, start: nat)
    requires start <= |content|
    ensures var n, end := Next(content, start), WindowEnd(content, start);
            && start <= n <= end
            && (forall i :: n <= i < end ==> content[i] != NEWLINE)
            && (n > start ==> content[n - 1] == NEWLINE || (n == start + TAIL_CHUNK && IsPlainChunk(content, start)))
            && (n == start ==> !IsPlainChunk(content, start))
  {
    var buf, end := Chunk(content, start), WindowEnd(content, start);
    PastLastNewlineIs(buf);
    assert forall i :: start <= i < end ==> content[i] == buf[i - start];
    if Next(content, start) == start {
      assert |buf| < TAIL_CHUNK;
    }
  }

  lemma PlainStop(content: Bytes, start: nat)
    requires IsPlainChunk(content, start)
    ensures Next(content, start) == start + TAIL_CHUNK && !IsBoundary(content, Next(content, start))
  {
    var buf, n := Chunk(content, start), start + TAIL_CHUNK;
    PastLastNewlineIs(buf);
    assert buf == content[start..n];
    assert buf[TAIL_CHUNK - 1] in buf;
    assert content[..n][n - 1] == buf[TAIL_CHUNK - 1];
  }

  /** A tick from between two lines stops between two lines, unless its chunk is full and has no newline. */
  lemma StopsBetweenLines(content: Bytes, start: nat)
    requires IsBoundary(content, start)
    ensures var n := Next(content, start);
            start <= n <= |content| && (IsBoundary(content, n) <==> !IsPlainChunk(content, start))
  {
    NextIs(content, start);
    var n := Next(content, start);
    if IsPlainChunk(content, start) {
      PlainStop(content, start);
    } else if n > start {
      assert content[..n][n - 1] == content[n - 1];
    }
  }

  /** It advances exactly when its chunk holds a newline, or is full. */
  lemma AdvancesExactly(content: Bytes, start: nat)
    requires start <= |content|
    ensures Next(content, start) > start
            <==> NEWLINE in Chunk(content, start) || |Chunk(content, start)| == TAIL_CHUNK
  {
    var buf := Chunk(content, start);
    PastLastNewlineIs(buf);
    if PastLastNewline(buf) > 0 {
      assert buf[PastLastNewline(buf) - 1] == NEWLINE;
    }
  }

  lemma PrefixOfSlice(s: Bytes, a: nat, b: nat, k: nat)
    requires a <= b <= |s| && k <= b - a
    ensures s[a..b][..k] == s[a..a + k]
  {
  }

  lemma ConsumedBytes(content: Bytes, start: nat)
    requires start <= |content|
    ensures var n, buf := Next(content, start), Chunk(content, start);
            start <= n <= |content| && Consumed(buf) <= |buf| && buf[..Consumed(buf)] == content[start..n]
  {
    var buf := Chunk(content, start);
    PastLastNewlineIs(buf);
    PrefixOfSlice(content, start, WindowEnd(content, start), Consumed(buf));
    assert buf == content[start..WindowEnd(content, start)];
  }

  /** A tick hands on exactly the events of the bytes it consumes. */
  lemma HandsOnWhatItConsumes(decode: LineDecoder, owner: string, content: Bytes, start: nat)
    requires start <= |content|
    ensures var n := Next(content, start);
            && start <= n <= |content|
            && TailEvents(decode, owner, Log(|content|, content), start)
                == (Events(decode, owner, content[start..n]), n)
  {
    ConsumedBytes(content, start);
  }

  /** With no over-long line, a tick advances whenever any complete line lies ahead. */
  lemma CompleteLineAdvances(content: Bytes, start: nat)
    requires IsBoundary(content, start) && !Oversized(content) && NEWLINE in content[start..]
    ensures Next(content, start) > start && IsBoundary(content, Next(content, start))
  {
    NextIs(content, start);
    assert !IsPlainChunk(content, start);
    var n, end := Next(content, start), WindowEnd(content, start);
    var i :| 0 <= i < |content[start..]| && content[start..][i] == NEWLINE;
    assert content[start + i] == NEWLINE;
    if end <= start + i {
      var j :| 0 <= j < TAIL_CHUNK && content[start..start + TAIL_CHUNK][j] == NEWLINE;
      assert content[start + j] == NEWLINE;
    }
    assert content[..n][n - 1] == content[n - 1];
  }

  /** Monotone in the start and in the log: a later start, on a longer log, never leaves off earlier. */
  lemma NextIsMonotone(content: Bytes, start: nat, longer: Bytes, later: nat)
    requires start <= |content| && content <= longer && start <= later <= |longer| && !Oversized(content)
    ensures Next(content, start) <= Next(longer, later)
  {
    NextIs(content, start);
    NextIs(longer, later);
    assert !IsPlainChunk(content, start);
    var n := Next(content, start);
    if n > later {
      assert longer[n - 1] == content[n - 1] == NEWLINE;
      assert n - 1 < WindowEnd(longer, later);
    }
  }

  lemma PrefixNotOversized(content: Bytes, longer: Bytes)
    requires content <= longer && !Oversized(longer)
    ensures !Oversized(content)
  {
    forall i: nat ensures !IsPlainChunk(content, i) {
      if IsPlainChunk(content, i) {
        assert longer[i..i + TAIL_CHUNK] == content[i..i + TAIL_CHUNK];
        assert IsPlainChunk(longer, i);
        assert false;
      }
    }
  }

  lemma BoundaryStays(content: Bytes, longer: Bytes, n: nat)
    requires content <= longer && IsBoundary(content, n)
    ensures IsBoundary(longer, n)
  {
    assert longer[..n] == content[..n];
  }

  /** A log that is not there, or cannot be read, hands on nothing; but that it shrank is noticed all the same. */
  lemma UnreadHandsOnNothing(decode: LineDecoder, owner: string, len: nat, offset: nat)
    ensures TailEvents(decode, owner, Missing, offset) == ([], offset)
    ensures len >= offset ==> TailEvents(decode, owner, SeekFailed(len), offset) == ([], offset)
    ensures len >= offset ==> TailEvents(decode, owner, ReadFailed(len), offset) == ([], offset)
    ensures len < offset ==> TailEvents(decode, owner, SeekFailed(len), offset) == ([], 0)
    ensures len < offset ==> TailEvents(decode, owner, ReadFailed(len), offset) == ([], 0)
  {
  }

  /** A shrunken log is read again from its start. */
  lemma ShrunkenRestarts(decode: LineDecoder, owner: string, content: Bytes, offset: nat)
    requires |content| < offset
    ensures var n := Next(content, 0);
            && n <= |content|
            && TailEvents(decode, owner, Log(|content|, content), offset) == (Events(decode, owner, content[0..n]), n)
  {
    HandsOnWhatItConsumes(decode, owner, content, 0);
  }

  /** A full chunk without a newline is not skipped: it is handed to the decoder as if it were a line. */
  lemma PlainChunkIsParsed(decode: LineDecoder, owner: string, content: Bytes, start: nat)
    requires IsPlainChunk(content, start)
    ensures var event := ParseEventLine(decode, owner, content[start..start + TAIL_CHUNK]);
            TailEvents(decode, owner, Log(|content|, content), start)
            == ((if event.Some? then [event.value] else []), start + TAIL_CHUNK)
  {
    var buf := Chunk(content, start);
    PlainStop(content, start);
    assert buf[..TAIL_CHUNK] == buf && buf == content[start..start + TAIL_CHUNK];
    OneLine(decode, owner, buf);
  }

  // --------------------------------------------------------------- schedules

  /** Ticks over a log as it stood at each of them; the offset each leaves is where the next starts. */
  function Ticks(decode: LineDecoder, owner: string, logs: seq<Bytes>, offset: nat): (seq<HookEvent>, nat)
    decreases |logs|
  {
    if logs == [] then ([], offset)
    else
      var (events, n) := TailEvents(decode, owner, Log(|logs[0]|, logs[0]), offset);
      var (rest, end) := Ticks(decode, owner, logs[1..], n);
      (events + rest, end)
  }

  /** The log a schedule's next tick sees. */
  function Upcoming(logs: seq<Bytes>, final: Bytes): Bytes {
    if logs == [] then final else logs[0]
  }

  /** Each log extends the one before, and `final` the last. */
  predicate Growing(logs: seq<Bytes>, final: Bytes) {
    logs == [] || (logs[0] <= Upcoming(logs[1..], final) && Growing(logs[1..], final))
  }

  lemma {:induction false} GrowsToFinal(logs: seq<Bytes>, final: Bytes)
    requires Growing(logs, final)
    ensures Upcoming(logs, final) <= final
  {
    if logs != [] {
      GrowsToFinal(logs[1..], final);
    }
  }

  /** Over every schedule of ticks on a growing log without an over-long line, the events handed on are
      those of the consumed lines, each once and in order, and the offset stays between lines. */
  lemma {:induction false} EachLineOnce(
    decode: LineDecoder, owner: string, logs: seq<Bytes>, final: Bytes, offset: nat)
    requires Growing(logs, final) && !Oversized(final) && IsBoundary(Upcoming(logs, final), offset)
    ensures var (events, end) := Ticks(decode, owner, logs, offset);
            && offset <= end && IsBoundary(final, end)
            && events == Events(decode, owner, final[offset..end])
    decreases |logs|
  {
    if logs == [] {
      NoEventsInNothing(decode, owner);
      assert final[offset..offset] == [];
    } else {
      GrowsToFinal(logs, final);
      var n := Ticked(decode, owner, logs[0], Upcoming(logs[1..], final), final, offset);
      EachLineOnce(decode, owner, logs[1..], final, n);
      Rejoin(decode, owner, final, offset, n, Ticks(decode, owner, logs[1..], n).1);
    }
  }

  lemma TicksOfMore(decode: LineDecoder, owner: string, log: Bytes, rest: seq<Bytes>, offset: nat)
    ensures var one := TailEvents(decode, owner, Log(|log|, log), offset);
            var more := Ticks(decode, owner, rest, one.1);
            Ticks(decode, owner, [log] + rest, offset) == (one.0 + more.0, more.1)
  {
    assert ([log] + rest)[1..] == rest;
  }

  /** The ticks over `a + b` are those over `a`, then those over `b`. */
  ghost predicate TicksJoin(decode: LineDecoder, owner: string, a: seq<Bytes>, b: seq<Bytes>, offset: nat) {
    var first := Ticks(decode, owner, a, offset);
    var more := Ticks(decode, owner, b, first.1);
    Ticks(decode, owner, a + b, offset) == (first.0 + more.0, more.1)
  }

  lemma TicksJoinStep(
    decode: LineDecoder, owner: string, log: Bytes, a: seq<Bytes>, b: seq<Bytes>, offset: nat, next: nat)
    requires next == TailEvents(decode, owner, Log(|log|, log), offset).1 && TicksJoin(decode, owner, a, b, next)
    ensures TicksJoin(decode, owner, [log] + a, b, offset)
  {
    var first, middle := TailEvents(decode, owner, Log(|log|, log), offset).0, Ticks(decode, owner, a, next);
    var more := Ticks(decode, owner, b, middle.1);
    assert Ticks(decode, owner, [log] + a, offset) == (first + middle.0, middle.1) by {
      TicksOfMore(decode, owner, log, a, offset);
    }
    assert Ticks(decode, owner, ([log] + a) + b, offset) == (first + (middle.0 + more.0), more.1) by {
      TicksOfMore(decode, owner, log, a + b, offset);
      Regroup([log], a, b);
    }
    Regroup(first, middle.0, more.0);
  }

  lemma {:induction false} TicksConcat(
    decode: LineDecoder, owner: string, a: seq<Bytes>, b: seq<Bytes>, offset: nat)
    ensures TicksJoin(decode, owner, a, b, offset)
    decreases |a|
  {
    if a == [] {
      assert a + b == b;
      assert [] + Ticks(decode, owner, b, offset).0 == Ticks(decode, owner, b, offset).0;
    } else {
      var next := TailEvents(decode, owner, Log(|a[0]|, a[0]), offset).1;
      TicksConcat(decode, owner, a[1..], b, next);
      TicksJoinStep(decode, owner, a[0], a[1..], b, offset, next);
      assert [a[0]] + a[1..] == a;
    }
  }

  lemma TicksFromTheStart(decode: LineDecoder, owner: string, logs: seq<Bytes>, offset: nat)
    requires logs != [] && |logs[0]| < offset
    ensures Ticks(decode, owner, logs, offset) == Ticks(decode, owner, logs, 0)
  {
    ShrunkenRestarts(decode, owner, logs[0], offset);
    HandsOnWhatItConsumes(decode, owner, logs[0], 0);
  }

  /** A schedule from the log's start. */
  lemma FromTheStart(decode: LineDecoder, owner: string, logs: seq<Bytes>, final: Bytes)
    requires Growing(logs, final) && !Oversized(final)
    ensures var (events, n) := Ticks(decode, owner, logs, 0);
            IsBoundary(final, n) && events == Events(decode, owner, final[..n])
  {
    GrowsToFinal(logs, final);
    EachLineOnce(decode, owner, logs, final, 0);
    var n := Ticks(decode, owner, logs, 0).1;
    assert final[0..n] == final[..n];
  }

  /** A log put in place of another is read whole, after what was consumed of the first, when its first tick
      finds it shorter than that. */
  lemma ReplacedLogIsReadWhole(
    decode: LineDecoder, owner: string, gone: seq<Bytes>, goneFinal: Bytes, logs: seq<Bytes>, final: Bytes)
    requires Growing(gone, goneFinal) && !Oversized(goneFinal) && Growing(logs, final) && !Oversized(final)
    requires logs != [] && |logs[0]| < Ticks(decode, owner, gone, 0).1
    ensures var end := Ticks(decode, owner, gone, 0).1;
            var (events, n) := Ticks(decode, owner, gone + logs, 0);
            && IsBoundary(goneFinal, end) && IsBoundary(final, n)
            && events == Events(decode, owner, goneFinal[..end]) + Events(decode, owner, final[..n])
  {
    FromTheStart(decode, owner, gone, goneFinal);
    FromTheStart(decode, owner, logs, final);
    TicksConcat(decode, owner, gone, logs, 0);
    TicksFromTheStart(decode, owner, logs, Ticks(decode, owner, gone, 0).1);
  }

  lemma SamePart(log: Bytes, longer: Bytes, a: nat, b: nat)
    requires log <= longer && a <= b <= |log|
    ensures log[a..b] == longer[a..b]
  {
  }

  lemma Ticked(decode: LineDecoder, owner: string, log: Bytes, next: Bytes, final: Bytes, offset: nat) returns (n: nat)
    requires log <= next && log <= final && !Oversized(final) && IsBoundary(log, offset)
    ensures offset <= n && IsBoundary(next, n) && IsBoundary(final, n) && IsBoundary(final, offset)
    ensures TailEvents(decode, owner, Log(|log|, log), offset) == (Events(decode, owner, final[offset..n]), n)
  {
    PrefixNotOversized(log, final);
    HandsOnWhatItConsumes(decode, owner, log, offset);
    StopsBetweenLines(log, offset);
    assert !IsPlainChunk(log, offset);
    n := Next(log, offset);
    BoundaryStays(log, next, n);
    BoundaryStays(log, final, n);
    BoundaryStays(log, final, offset);
    SamePart(log, final, offset, n);
  }

  lemma Adjacent(log: Bytes, a: nat, b: nat, c: nat)
    requires a <= b <= c <= |log| && IsBoundary(log, a) && IsBoundary(log, b)
    ensures log[a..c] == log[a..b] + log[b..c] && EndsLine(log[a..b])
  {
    if a < b {
      assert log[..b][b - 1] == log[a..b][b - a - 1];
    }
  }

  lemma Rejoin(decode: LineDecoder, owner: string, log: Bytes, a: nat, b: nat, c: nat)
    requires a <= b <= c <= |log| && IsBoundary(log, a) && IsBoundary(log, b)
    ensures Events(decode, owner, log[a..c]) == Events(decode, owner, log[a..b]) + Events(decode, owner, log[b..c])
  {
    Adjacent(log, a, b, c);
    EventsConcat(decode, owner, log[a..b], log[b..c]);
  }
}
