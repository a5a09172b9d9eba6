/** What a line longer than a chunk does: the exactly-once results exclude it, and have to. */
module OverlongLines {
  import opened Wrappers
  import opened Octets
  import opened Text
  import opened Scope
  import opened Ingest
  import opened JobStore
  import opened IngestProtocol

  // ---------------------------------------------------------- the first chunk

  /** The first full chunk without a newline starts a line. */
  lemma {:induction false} FirstPlainChunk(content: Bytes, i: nat) returns (first: nat)
    requires IsPlainChunk(content, i)
    ensures IsFirstPlain(content, first)
    decreases i
  {
    if j: nat :| j < i && IsPlainChunk(content, j) {
      first := FirstPlainChunk(content, j);
    } else {
      first := i;
      if !IsBoundary(content, i) {
        assert content[i - 1] != NEWLINE;
        assert content[i - 1..i - 1 + TAIL_CHUNK] == [content[i - 1]] + content[i..i + TAIL_CHUNK][..TAIL_CHUNK - 1];
        assert IsPlainChunk(content, i - 1);
      }
    }
  }

  ghost predicate IsFirstPlain(content: Bytes, first: nat) {
    && IsPlainChunk(content, first) && IsBoundary(content, first)
    && forall j: nat :: j < first ==> !IsPlainChunk(content, j)
  }

  lemma TowardsTheChunk(content: Bytes, offset: nat, first: nat)
    requires IsBoundary(content, offset) && offset < first && IsFirstPlain(content, first)
    ensures var n := Next(content, offset); offset < n <= first && IsBoundary(content, n)
  {
    NextIs(content, offset);
    StopsBetweenLines(content, offset);
    AdvancesExactly(content, offset);
    var n := Next(content, offset);
    assert |Chunk(content, offset)| == TAIL_CHUNK;
    assert forall k :: first <= k < first + TAIL_CHUNK ==> content[k] == content[first..first + TAIL_CHUNK][k - first];
  }

  /** What the decoder makes of the chunk at `first`, and of the lines from `offset` up to it. */
  function UpToTheChunk(decode: LineDecoder, owner: string, content: Bytes, offset: nat, first: nat): seq<HookEvent>
    requires offset <= first && first + TAIL_CHUNK <= |content|
  {
    var event := ParseEventLine(decode, owner, content[first..first + TAIL_CHUNK]);
    Events(decode, owner, content[offset..first]) + (if event.Some? then [event.value] else [])
  }

  /** One step of the way there. */
  lemma UpToTheChunkSplits(decode: LineDecoder, owner: string, content: Bytes, offset: nat, n: nat, first: nat)
    requires offset <= n <= first && first + TAIL_CHUNK <= |content|
    requires IsBoundary(content, offset) && IsBoundary(content, n)
    ensures UpToTheChunk(decode, owner, content, offset, first)
            == Events(decode, owner, content[offset..n]) + UpToTheChunk(decode, owner, content, n, first)
  {
    Rejoin(decode, owner, content, offset, n, first);
  }

  lemma UpToItself(decode: LineDecoder, owner: string, content: Bytes, first: nat)
    requires IsPlainChunk(content, first)
    ensures TailEvents(decode, owner, Log(|content|, content), first)
         == (UpToTheChunk(decode, owner, content, first, first), first + TAIL_CHUNK)
  {
    PlainChunkIsParsed(decode, owner, content, first);
    NoEventsInNothing(decode, owner);
    assert content[first..first] == [];
    var events := TailEvents(decode, owner, Log(|content|, content), first).0;
    assert [] + events == events;
  }

  /** Ticking a log that stays as it is comes to the line that holds such a chunk, hands the chunk on as if it
      were a line, and stops inside the line. */
  lemma {:induction false} LeavesTheLines(
    decode: LineDecoder, owner: string, content: Bytes, offset: nat, first: nat) returns (logs: seq<Bytes>)
    requires IsBoundary(content, offset) && offset <= first && IsFirstPlain(content, first)
    ensures logs != [] && logs[0] == content && Growing(logs, content)
    ensures Ticks(decode, owner, logs, offset)
         == (UpToTheChunk(decode, owner, content, offset, first), first + TAIL_CHUNK)
    decreases first - offset
  {
    if offset == first {
      logs := [content];
      UpToItself(decode, owner, content, first);
      assert logs == [content] + [];
      TicksOfMore(decode, owner, content, [], offset);
      var events := UpToTheChunk(decode, owner, content, first, first);
      assert events + [] == events;
    } else {
      TowardsTheChunk(content, offset, first);
      HandsOnWhatItConsumes(decode, owner, content, offset);
      var n := Next(content, offset);
      var rest := LeavesTheLines(decode, owner, content, n, first);
      logs := [content] + rest;
      TicksOfMore(decode, owner, content, rest, offset);
      UpToTheChunkSplits(decode, owner, content, offset, n, first);
      assert logs[1..] == rest;
    }
  }

  /** Without that hypothesis some schedule leaves the lines, whatever the decoder. */
  lemma OversizedExactly(decode: LineDecoder, owner: string, final: Bytes)
    ensures Oversized(final)
            <==> exists logs :: Growing(logs, final) && !IsBoundary(final, Ticks(decode, owner, logs, 0).1)
  {
    if Oversized(final) {
      var i :| IsPlainChunk(final, i);
      var first := FirstPlainChunk(final, i);
      var logs := LeavesTheLines(decode, owner, final, 0, first);
      PlainStop(final, first);
    } else {
      forall logs | Growing(logs, final) ensures IsBoundary(final, Ticks(decode, owner, logs, 0).1) {
        GrowsToFinal(logs, final);
        EachLineOnce(decode, owner, logs, final, 0);
      }
    }
  }

  // ------------------------------------------------------- an event of no line

  /** The events of the complete lines among some bytes. */
  function LineEvents(decode: LineDecoder, owner: string, bytes: Bytes): seq<HookEvent> {
    PastLastNewlineIs(bytes);
    Events(decode, owner, bytes[..PastLastNewline(bytes)])
  }

  lemma EventOfChunk(owner: string)
    requires '/' !in owner
    ensures IsRepoOf(owner + "/r", owner)
  {
    assert owner + "/r" == owner + ['/'] + "r";
    SplitOnceAt(owner, '/', "r");
  }

  /** A decoder that knows one line only. */
  function KnowsOnly(chunk: Bytes, owner: string): LineDecoder
    requires chunk != []
  {
    (line: Bytes) => if line == chunk then Some(Started(JobRef(0, owner + "/r", 0, 0, ""))) else None
  }

  predicate Occurs(chunk: Bytes, bytes: Bytes, j: nat) {
    j + |chunk| <= |bytes| && bytes[j..j + |chunk|] == chunk
  }

  ghost predicate Nowhere(chunk: Bytes, bytes: Bytes) {
    forall j: nat :: !Occurs(chunk, bytes, j)
  }

  lemma NowhereAfter(chunk: Bytes, bytes: Bytes, n: nat)
    requires n <= |bytes| && Nowhere(chunk, bytes)
    ensures Nowhere(chunk, bytes[n..])
  {
    forall j: nat ensures !Occurs(chunk, bytes[n..], j) {
      assert !Occurs(chunk, bytes, n + j);
    }
  }

  lemma OtherLine(chunk: Bytes, owner: string, bytes: Bytes, n: nat)
    requires chunk != [] && n <= |bytes| && Nowhere(chunk, bytes) && NEWLINE !in bytes[..n]
    ensures Events(KnowsOnly(chunk, owner), owner, bytes[..n]) == []
  {
    assert !Occurs(chunk, bytes, 0);
    assert bytes[..n] == bytes[0..n];
    OneLine(KnowsOnly(chunk, owner), owner, bytes[..n]);
  }

  /** Bytes that hold the chunk nowhere have no event for that decoder. */
  lemma {:induction false} NothingKnown(chunk: Bytes, owner: string, bytes: Bytes)
    requires chunk != [] && Nowhere(chunk, bytes)
    ensures Events(KnowsOnly(chunk, owner), owner, bytes) == []
    decreases |bytes|
  {
    var i := IndexOf(bytes, NEWLINE);
    if i < 0 {
      assert bytes[..|bytes|] == bytes;
      OtherLine(chunk, owner, bytes, |bytes|);
    } else {
      OtherLine(chunk, owner, bytes, i);
      NowhereAfter(chunk, bytes, i + 1);
      NothingKnown(chunk, owner, bytes[i + 1..]);
      EventsAcrossNewline(KnowsOnly(chunk, owner), owner, bytes[..i], bytes[i + 1..]);
      assert bytes == bytes[..i] + [NEWLINE] + bytes[i + 1..];
    }
  }

  /** The first such chunk occurs nowhere before it. */
  lemma FirstIsNew(content: Bytes, first: nat)
    requires IsFirstPlain(content, first)
    ensures Nowhere(content[first..first + TAIL_CHUNK], content[..first])
  {
    var chunk, before := content[first..first + TAIL_CHUNK], content[..first];
    forall j: nat ensures !Occurs(chunk, before, j) {
      if Occurs(chunk, before, j) {
        assert content[j..j + TAIL_CHUNK] == before[j..j + TAIL_CHUNK];
        assert IsPlainChunk(content, j);
        assert false;
      }
    }
  }

  /** Of the bytes up to the chunk's end, the complete lines are those before it. */
  lemma LinesBeforeTheChunk(content: Bytes, first: nat)
    requires IsFirstPlain(content, first)
    ensures PastLastNewline(content[..first + TAIL_CHUNK]) == first
  {
    var bytes := content[..first + TAIL_CHUNK];
    PastLastNewlineIs(bytes);
    var n := PastLastNewline(bytes);
    assert forall k :: first <= k < first + TAIL_CHUNK ==> bytes[k] == content[first..first + TAIL_CHUNK][k - first];
    assert first > 0 ==> content[..first][first - 1] == bytes[first - 1];
  }

  /** To that decoder the code hands on one event, and the log has none. */
  lemma EventOfNoLine(owner: string, content: Bytes, first: nat)
    requires IsFirstPlain(content, first) && '/' !in owner
    ensures var decode := KnowsOnly(content[first..first + TAIL_CHUNK], owner);
            && LineEvents(decode, owner, content[..first + TAIL_CHUNK]) == []
            && |UpToTheChunk(decode, owner, content, 0, first)| == 1
  {
    var chunk := content[first..first + TAIL_CHUNK];
    FirstIsNew(content, first);
    NothingKnown(chunk, owner, content[..first]);
    LinesBeforeTheChunk(content, first);
    EventOfChunk(owner);
    assert content[..first + TAIL_CHUNK][..first] == content[..first] == content[0..first];
  }

  /** A schedule's events are other than those of the complete lines it went over. */
  ghost predicate Strays(decode: LineDecoder, owner: string, final: Bytes, logs: seq<Bytes>) {
    var (events, end) := Ticks(decode, owner, logs, 0);
    Growing(logs, final) && end <= |final| && events != LineEvents(decode, owner, final[..end])
  }

  lemma NotOwned(repo: string, owner: string)
    requires '/' in owner
    ensures !IsRepoOf(repo, owner)
  {
  }

  /** An owner with a slash owns nothing. */
  lemma {:induction false} NothingOwned(decode: LineDecoder, owner: string, lines: seq<Bytes>)
    requires '/' in owner
    ensures EventsOf(decode, owner, lines) == []
  {
    if lines != [] {
      NothingOwned(decode, owner, lines[1..]);
      if decode(lines[0]).Some? {
        NotOwned(decode(lines[0]).value.job.repo, owner);
      }
    }
  }

  lemma {:induction false} NothingTicks(decode: LineDecoder, owner: string, logs: seq<Bytes>, offset: nat)
    requires '/' in owner
    ensures Ticks(decode, owner, logs, offset).0 == []
    decreases |logs|
  {
    if logs != [] {
      var log := logs[0];
      var start := if |log| < offset then 0 else offset;
      var buf := Chunk(log, start);
      PastLastNewlineIs(buf);
      NothingOwned(decode, owner, SplitAll(buf[..Consumed(buf)], NEWLINE));
      NothingTicks(decode, owner, logs[1..], TailEvents(decode, owner, Log(|log|, log), offset).1);
    }
  }

  lemma NothingStrays(decode: LineDecoder, owner: string, final: Bytes, logs: seq<Bytes>)
    requires Oversized(final) ==> '/' in owner
    requires Growing(logs, final) && Ticks(decode, owner, logs, 0).1 <= |final|
    ensures !Strays(decode, owner, final, logs)
  {
    var bytes := final[..Ticks(decode, owner, logs, 0).1];
    PastLastNewlineIs(bytes);
    if '/' in owner {
      NothingTicks(decode, owner, logs, 0);
      NothingOwned(decode, owner, SplitAll(bytes[..PastLastNewline(bytes)], NEWLINE));
    } else {
      FromTheStart(decode, owner, logs, final);
      assert bytes[..PastLastNewline(bytes)] == bytes;
    }
  }

  lemma OneTooMany(decode: LineDecoder, owner: string, final: Bytes, logs: seq<Bytes>, events: seq<HookEvent>, end: nat)
    requires Growing(logs, final) && Ticks(decode, owner, logs, 0) == (events, end) && end <= |final|
    requires |events| == 1 && LineEvents(decode, owner, final[..end]) == []
    ensures Strays(decode, owner, final, logs)
  {
  }

  lemma SomethingStrays(owner: string, final: Bytes) returns (decode: LineDecoder, logs: seq<Bytes>)
    requires Oversized(final) && '/' !in owner
    ensures Strays(decode, owner, final, logs)
  {
    var i :| IsPlainChunk(final, i);
    var first := FirstPlainChunk(final, i);
    decode := KnowsOnly(final[first..first + TAIL_CHUNK], owner);
    logs := LeavesTheLines(decode, owner, final, 0, first);
    EventOfNoLine(owner, final, first);
    OneTooMany(decode, owner, final, logs, UpToTheChunk(decode, owner, final, 0, first), first + TAIL_CHUNK);
  }

  /** A log of an owner that can own a repository has a full chunk without a newline, exactly when for some
      decoder some schedule hands on other events than those of the complete lines it went over. */
  lemma LinesOnceExactly(owner: string, final: Bytes)
    ensures Oversized(final) && '/' !in owner
            <==> exists decode: LineDecoder, logs :: Strays(decode, owner, final, logs)
  {
    if Oversized(final) && '/' !in owner {
      var decode, logs := SomethingStrays(owner, final);
    } else {
      forall decode: LineDecoder, logs ensures !Strays(decode, owner, final, logs) {
        if Growing(logs, final) && Ticks(decode, owner, logs, 0).1 <= |final| {
          NothingStrays(decode, owner, final, logs);
        }
      }
    }
  }

  // ------------------------------------------------------------- the protocol

  /** One round of the tailer and the writer, for one runner. */
  function Round(r: Runner): seq<Step> {
    [ReadOffsets, Send(r), Write(true)]
  }

  /** Both of them idle, the log read up to `offset`. */
  predicate IsIdle(w: World, r: Runner, offset: nat) {
    w.channel == [] && CommittedOf(w, r.stream) == offset <= |LogOf(w, r.stream)|
  }

  /** A round commits what one tick of the log hands on. */
  lemma RoundCommits(decode: LineDecoder, w: World, r: Runner, offset: nat)
    requires IsIdle(w, r, offset)
    ensures var log, w' := LogOf(w, r.stream), AfterAll(decode, w, Round(r));
            var (events, n) := TailEvents(decode, r.owner, Log(|log|, log), offset);
            w'.logs == w.logs && IsIdle(w', r, n) && w'.table == Fold(w.table, r.name, events)
  {
    var log, one := LogOf(w, r.stream), After(decode, w, ReadOffsets);
    HandsOnWhatItConsumes(decode, r.owner, log, offset);
    if Next(log, offset) == offset {
      NoEventsInNothing(decode, r.owner);
      assert log[offset..offset] == [];
    }
    var (events, n) := TailEvents(decode, r.owner, Log(|log|, log), offset);
    SendIs(decode, one, r, events, n);
    var sent := After(decode, one, Send(r));
    assert [] + Sent(r, offset, events, n) == Sent(r, offset, events, n);
    WriteIs(decode, sent, r, events, n);
    RoundIs(decode, w, r);
  }

  lemma RoundIs(decode: LineDecoder, w: World, r: Runner)
    ensures AfterAll(decode, w, Round(r))
         == After(decode, After(decode, After(decode, w, ReadOffsets), Send(r)), Write(true))
  {
    var one := After(decode, w, ReadOffsets);
    var two := After(decode, one, Send(r));
    assert Round(r)[1..] == [Send(r), Write(true)] && [Send(r), Write(true)][1..] == [Write(true)];
    assert [Write(true)][1..] == [];
    assert AfterAll(decode, one, [Send(r), Write(true)]) == AfterAll(decode, two, [Write(true)])
        == After(decode, two, Write(true));
  }

  /** What one batch leaves, if there is one. */
  function Sent(r: Runner, committed: nat, events: seq<HookEvent>, n: nat): seq<Sample> {
    if n == committed then [] else [Hook(r.stream, r.name, events, n)]
  }

  lemma SendIs(decode: LineDecoder, w: World, r: Runner, events: seq<HookEvent>, n: nat)
    requires var log := LogOf(w, r.stream);
             TailEvents(decode, r.owner, Log(|log|, log), OffsetIn(w.snapshot, r.stream)) == (events, n)
    ensures After(decode, w, Send(r))
         == w.(channel := w.channel + Sent(r, OffsetIn(w.snapshot, r.stream), events, n))
  {
  }

  lemma WriteIs(decode: LineDecoder, w: World, r: Runner, events: seq<HookEvent>, n: nat)
    requires w.channel == Sent(r, CommittedOf(w, r.stream), events, n)
    requires n == CommittedOf(w, r.stream) ==> events == []
    ensures var w' := After(decode, w, Write(true));
            && w'.logs == w.logs && w'.channel == [] && CommittedOf(w', r.stream) == n
            && w'.table == Fold(w.table, r.name, events)
  {
  }

  lemma {:induction false} AfterConcat(decode: LineDecoder, w: World, a: seq<Step>, b: seq<Step>)
    ensures AfterAll(decode, w, a + b) == AfterAll(decode, AfterAll(decode, w, a), b)
    decreases |a|
  {
    if a == [] {
      assert a + b == b;
    } else {
      assert (a + b)[1..] == a[1..] + b;
      AfterConcat(decode, After(decode, w, a[0]), a[1..], b);
    }
  }

  /** Rounds come to the chunk, and commit it as if it were a line. */
  lemma {:induction false} RoundsLeaveTheLines(decode: LineDecoder, w: World, r: Runner, offset: nat, first: nat)
    returns (steps: seq<Step>)
    requires IsIdle(w, r, offset) && offset <= first
    requires IsBoundary(LogOf(w, r.stream), offset) && IsFirstPlain(LogOf(w, r.stream), first)
    ensures forall i :: 0 <= i < |steps| ==> steps[i] in Round(r)
    ensures var log, w' := LogOf(w, r.stream), AfterAll(decode, w, steps);
            && w'.logs == w.logs && CommittedOf(w', r.stream) == first + TAIL_CHUNK
            && w'.table == Fold(w.table, r.name, UpToTheChunk(decode, r.owner, log, offset, first))
    decreases first - offset
  {
    var log := LogOf(w, r.stream);
    RoundCommits(decode, w, r, offset);
    if offset == first {
      steps := Round(r);
      UpToItself(decode, r.owner, log, first);
    } else {
      TowardsTheChunk(log, offset, first);
      HandsOnWhatItConsumes(decode, r.owner, log, offset);
      var n, next := Next(log, offset), AfterAll(decode, w, Round(r));
      var rest := RoundsLeaveTheLines(decode, next, r, n, first);
      steps := Round(r) + rest;
      AfterConcat(decode, w, Round(r), rest);
      UpToTheChunkSplits(decode, r.owner, log, offset, n, first);
      FoldConcat(w.table, r.name, Events(decode, r.owner, log[offset..n]),
        UpToTheChunk(decode, r.owner, log, n, first));
    }
  }

  lemma {:induction false} LogsStay(decode: LineDecoder, w: World, steps: seq<Step>)
    requires forall i :: 0 <= i < |steps| ==> !steps[i].Append?
    ensures AfterAll(decode, w, steps).logs == w.logs
    decreases |steps|
  {
    if steps != [] {
      LogsStay(decode, After(decode, w, steps[0]), steps[1..]);
    }
  }

  /** Steps of these runners on logs as they are. */
  ghost predicate Reads(runners: set<Runner>, steps: seq<Step>) {
    forall i :: 0 <= i < |steps| ==> StepOf(runners, steps[i]) && !steps[i].Append?
  }

  /** The runner's columns are the events of the complete lines committed, each once. */
  ghost predicate OncePerLine(decode: LineDecoder, w: World, r: Runner) {
    var log, committed := LogOf(w, r.stream), CommittedOf(w, r.stream);
    && committed <= |log|
    && SameColumns(w.table, Fold(map[], r.name, LineEvents(decode, r.owner, log[..committed])), r.name)
  }

  ghost predicate AllOncePerLine(decode: LineDecoder, runners: set<Runner>, w: World) {
    forall r :: r in runners ==> OncePerLine(decode, w, r)
  }

  function Fresh(logs: map<string, Bytes>): World {
    World(logs, map[], [], map[], map[])
  }

  lemma ColumnsAreOnce(decode: LineDecoder, w: World, r: Runner)
    requires ColumnsOk(decode, r, LogOf(w, r.stream), CommittedOf(w, r.stream), w.table)
    ensures OncePerLine(decode, w, r)
  {
    var bytes := LogOf(w, r.stream)[..CommittedOf(w, r.stream)];
    PastLastNewlineIs(bytes);
    assert bytes[..PastLastNewline(bytes)] == bytes;
  }

  /** One event is one row: no columns are those of none. */
  lemma OneEventIsARow(t: Table, runner: string, events: seq<HookEvent>)
    requires |events| == 1 && t == Fold(map[], runner, events)
    ensures !SameColumns(t, Fold(map[], runner, []), runner)
  {
    var k := KeyOf(events[0], runner);
    assert events[1..] == [];
    assert RowAt(t, k).Some? && RowAt(map[], k).None?;
    assert !SameRow(RowAt(t, k), RowAt(Fold(map[], runner, []), k));
  }

  /** Of a new database, with a decoder that knows the chunk only: some run writes a row no line asks for. */
  lemma RowOfNoLine(logs: map<string, Bytes>, r: Runner) returns (decode: LineDecoder, steps: seq<Step>)
    requires '/' !in r.owner && Oversized(LogOf(Fresh(logs), r.stream))
    ensures forall i :: 0 <= i < |steps| ==> steps[i] in Round(r)
    ensures !OncePerLine(decode, AfterAll(decode, Fresh(logs), steps), r)
  {
    var w := Fresh(logs);
    var log := LogOf(w, r.stream);
    var i :| IsPlainChunk(log, i);
    var first := FirstPlainChunk(log, i);
    decode := KnowsOnly(log[first..first + TAIL_CHUNK], r.owner);
    steps := RoundsLeaveTheLines(decode, w, r, 0, first);
    EventOfNoLine(r.owner, log, first);
    OneEventIsARow(AfterAll(decode, w, steps).table, r.name, UpToTheChunk(decode, r.owner, log, 0, first));
  }

  /** Of a new database over any logs, whose owners can own repositories: no log has a full chunk without a
      newline, exactly when for every decoder every run has each runner's columns be the events of the
      complete lines it committed, each once. */
  lemma LinesMustFit(runners: set<Runner>, logs: map<string, Bytes>)
    requires forall r, q :: r in runners && q in runners && r != q ==> r.stream != q.stream && r.name != q.name
    requires forall r :: r in runners ==> '/' !in r.owner
    ensures LinesFit(runners, Fresh(logs))
            <==> forall decode: LineDecoder, steps :: Reads(runners, steps) ==>
                   AllOncePerLine(decode, runners, AfterAll(decode, Fresh(logs), steps))
  {
    if LinesFit(runners, Fresh(logs)) {
      forall decode: LineDecoder, steps | Reads(runners, steps)
        ensures AllOncePerLine(decode, runners, AfterAll(decode, Fresh(logs), steps))
      {
        FittingLinesAreOnce(decode, runners, logs, steps);
      }
    } else {
      var r :| r in runners && Oversized(LogOf(Fresh(logs), r.stream));
      var decode, steps := RowOfNoLine(logs, r);
      assert Reads(runners, steps);
      assert !AllOncePerLine(decode, runners, AfterAll(decode, Fresh(logs), steps));
    }
  }

  lemma FittingLinesAreOnce(decode: LineDecoder, runners: set<Runner>, logs: map<string, Bytes>, steps: seq<Step>)
    requires forall r, q :: r in runners && q in runners && r != q ==> r.stream != q.stream && r.name != q.name
    requires LinesFit(runners, Fresh(logs)) && Reads(runners, steps)
    ensures AllOncePerLine(decode, runners, AfterAll(decode, Fresh(logs), steps))
  {
    var w' := AfterAll(decode, Fresh(logs), steps);
    FreshIsOk(decode, runners, logs);
    LogsStay(decode, Fresh(logs), steps);
    EveryEventOnce(decode, runners, Fresh(logs), steps);
    forall r | r in runners ensures OncePerLine(decode, w', r) {
      ColumnsAreOnce(decode, w', r);
    }
  }
}
