/** Hook-log ingest as an asynchronous protocol: hooks append, the tailer reads committed offsets and
    enqueues batches, and the one writer commits or loses the batch at the head of the channel. */
module IngestProtocol {
  import opened Seqs
  import opened Octets
  import opened Ingest
  import opened JobStore

  /** A runner as discovered: its log's stream, its name, the owner it is registered to. */
  datatype Runner = Runner(stream: string, name: string, owner: string)

  datatype Sample =
    | Hook(stream: string, runner: string, events: seq<HookEvent>, offset: nat)
    | JobConclusions(updates: seq<Conclusion>)

  // -------------------------------------------------------------- the tailer

  function OffsetIn(offsets: map<string, nat>, stream: string): nat {
    if stream in offsets then offsets[stream] else 0
  }

  /** What one runner's log adds to a tick: a batch if the offset moves, else nothing. */
  function Batch(decode: LineDecoder, r: Runner, offsets: map<string, nat>, log: LogRead): seq<Sample> {
    var offset := OffsetIn(offsets, r.stream);
    var (events, next) := TailEvents(decode, r.owner, log, offset);
    if next == offset then [] else [Hook(r.stream, r.name, events, next)]
  }

  function Batches(decode: LineDecoder, runners: seq<Runner>, offsets: map<string, nat>,
      logs: seq<LogRead>): seq<Sample>
    requires |logs| == |runners|
    decreases |runners|
  {
    if runners == [] then []
    else Batch(decode, runners[0], offsets, logs[0]) + Batches(decode, runners[1..], offsets, logs[1..])
  }

  lemma BatchesFrom(decode: LineDecoder, runners: seq<Runner>, offsets: map<string, nat>, logs: seq<LogRead>, i: nat)
    requires |logs| == |runners| && i < |runners|
    ensures Batches(decode, runners[i..], offsets, logs[i..])
         == Batch(decode, runners[i], offsets, logs[i]) + Batches(decode, runners[i + 1..], offsets, logs[i + 1..])
  {
    assert runners[i..][1..] == runners[i + 1..] && logs[i..][1..] == logs[i + 1..];
  }

  /** The tailer's side of the channel, and one tick of its loop. */
  class Tailer {
    var channel: seq<Sample>

    method Tick(decode: LineDecoder, runners: seq<Runner>, offsets: map<string, nat>, logs: seq<LogRead>)
      requires |logs| == |runners|
      modifies this
      ensures channel == old(channel) + Batches(decode, runners, offsets, logs)
    {
      var i := 0;
      while i < |runners|
        invariant i <= |runners|
        decreases |runners| - i
        invariant channel + Batches(decode, runners[i..], offsets, logs[i..])
               == old(channel) + Batches(decode, runners, offsets, logs)
      {
        var r := runners[i];
        BatchesFrom(decode, runners, offsets, logs, i);
        Regroup(channel, Batch(decode, r, offsets, logs[i]), Batches(decode, runners[i + 1..], offsets, logs[i + 1..]));
        var offset := OffsetIn(offsets, r.stream);
        var (events, next) := TailEvents(decode, r.owner, logs[i], offset);
        i := i + 1;
        if next == offset {
          assert channel + [] == channel;
          continue;
        }
        channel := channel + [Hook(r.stream, r.name, events, next)];
      }
      assert channel + [] == channel;
    }
  }

  // --------------------------------------------------------------- the world

  /** `snapshot` is the offsets the tailer last read; `table` and `offsets` are what is committed. */
  datatype World = World(
    logs: map<string, Bytes>, snapshot: map<string, nat>, channel: seq<Sample>,
    table: Table, offsets: map<string, nat>)

  datatype Step =
    | Append(stream: string, bytes: Bytes)
    | ReadOffsets
    | Send(r: Runner)
    | Conclude(updates: seq<Conclusion>)
    | Write(commits: bool)
    | Restart

  function LogOf(w: World, stream: string): Bytes {
    if stream in w.logs then w.logs[stream] else []
  }

  function CommittedOf(w: World, stream: string): nat {
    OffsetIn(w.offsets, stream)
  }

  /** Each step; `Send` is one iteration of the tailer's loop, `Write` one of the writer's. */
  function After(decode: LineDecoder, w: World, step: Step): World {
    match step
    case Append(stream, bytes) => w.(logs := w.logs[stream := LogOf(w, stream) + bytes])
    case ReadOffsets => w.(snapshot := w.offsets)
    case Send(r) =>
      var log := LogOf(w, r.stream);
      w.(channel := w.channel + Batch(decode, r, w.snapshot, Log(|log|, log)))
    case Conclude(updates) => w.(channel := w.channel + [JobConclusions(updates)])
    case Write(commits) => if w.channel == [] then w else Written(w, w.channel[0], commits).(channel := w.channel[1..])
    case Restart => w.(channel := [], snapshot := w.offsets)
  }

  function Written(w: World, sample: Sample, commits: bool): World {
    if !commits then w
    else match sample
      case Hook(stream, runner, events, offset) =>
        w.(table := Fold(w.table, runner, events), offsets := w.offsets[stream := offset])
      case JobConclusions(updates) => w.(table := ConcludedAll(w.table, updates))
  }

  function AfterAll(decode: LineDecoder, w: World, steps: seq<Step>): World
    decreases |steps|
  {
    if steps == [] then w else AfterAll(decode, After(decode, w, steps[0]), steps[1..])
  }

  function Sends(runners: seq<Runner>): (r: seq<Step>)
    ensures |r| == |runners| && forall i :: 0 <= i < |runners| ==> r[i] == Send(runners[i])
  {
    seq(|runners|, i requires 0 <= i < |runners| => Send(runners[i]))
  }

  predicate ReadsLogs(w: World, runners: seq<Runner>, logs: seq<LogRead>) {
    |logs| == |runners| && forall i :: 0 <= i < |runners| ==>
      logs[i] == Log(|LogOf(w, runners[i].stream)|, LogOf(w, runners[i].stream))
  }

  /** A tick of the tailer sends what one `Send` per runner sends. */
  lemma {:induction false} TickIsSends(decode: LineDecoder, w: World, runners: seq<Runner>, logs: seq<LogRead>)
    requires ReadsLogs(w, runners, logs)
    ensures AfterAll(decode, w, Sends(runners))
         == w.(channel := w.channel + Batches(decode, runners, w.snapshot, logs))
    decreases |runners|
  {
    if runners == [] {
      assert w.channel + [] == w.channel;
    } else {
      var rest, batch := runners[1..], Batch(decode, runners[0], w.snapshot, logs[0]);
      var w1 := w.(channel := w.channel + batch);
      assert Sends(runners)[1..] == Sends(rest);
      assert ReadsLogs(w1, rest, logs[1..]);
      TickIsSends(decode, w1, rest, logs[1..]);
      Regroup(w.channel, batch, Batches(decode, rest, w.snapshot, logs[1..]));
    }
  }

  /** A hook's bytes join the end of its own log. */
  lemma AppendIs(decode: LineDecoder, w: World, stream: string, bytes: Bytes, other: string)
    ensures var w' := After(decode, w, Append(stream, bytes));
            && (stream in w.logs ==> w'.logs[stream] == w.logs[stream] + bytes)
            && (stream !in w.logs ==> stream in w'.logs && w'.logs[stream] == bytes)
            && LogOf(w', stream) == w'.logs[stream]
            && (other != stream ==> LogOf(w', other) == LogOf(w, other))
            && w' == w.(logs := w'.logs)
  {
  }

  /** A restart loses what was in the channel and reads the offsets committed. */
  lemma RestartLoses(decode: LineDecoder, w: World)
    ensures var w' := After(decode, w, Restart);
            && w'.channel == [] && w'.snapshot == w.offsets
            && w'.offsets == w.offsets && w'.table == w.table && w'.logs == w.logs
  {
  }

  /** Conclusions sent over an empty channel are what the next write commits, or loses. */
  lemma ConclusionsArrive(decode: LineDecoder, w: World, us: seq<Conclusion>, commits: bool)
    requires w.channel == []
    ensures var w' := After(decode, After(decode, w, Conclude(us)), Write(commits));
            w' == if commits then w.(table := ConcludedAll(w.table, us)) else w
  {
    assert w.channel + [JobConclusions(us)] == [JobConclusions(us)];
  }

  // ------------------------------------------------------------ the invariant

  /** A batch in flight: a tick's worth of whole lines, cut from a start no later than `snap`. */
  ghost predicate InFlight(decode: LineDecoder, r: Runner, log: Bytes, snap: nat, sample: Sample) {
    sample.Hook? && sample.runner == r.name && exists start: nat :: CutFrom(decode, r, log, snap, sample, start)
  }

  predicate CutFrom(decode: LineDecoder, r: Runner, log: Bytes, snap: nat, sample: Sample, start: nat)
    requires sample.Hook?
  {
    && start <= snap && IsBoundary(log, start) && IsBoundary(log, sample.offset)
    && start <= sample.offset <= Next(log, start)
    && sample.events == Events(decode, r.owner, log[start..sample.offset])
  }

  predicate Mine(channel: seq<Sample>, i: int, stream: string) {
    0 <= i < |channel| && channel[i].Hook? && channel[i].stream == stream
  }

  /** The stream's batches in the channel: each a cut, none before what is committed, in order. */
  ghost predicate QueueOk(decode: LineDecoder, r: Runner, log: Bytes, snap: nat, committed: nat, channel: seq<Sample>) {
    && (forall i :: Mine(channel, i, r.stream) ==>
          InFlight(decode, r, log, snap, channel[i]) && committed <= channel[i].offset)
    && (forall i, j :: Mine(channel, i, r.stream) && Mine(channel, j, r.stream) && i < j ==>
          channel[i].offset <= channel[j].offset)
  }

  /** The runner's columns are the fold of the events of the committed bytes, each once. */
  ghost predicate ColumnsOk(decode: LineDecoder, r: Runner, log: Bytes, committed: nat, table: Table) {
    IsBoundary(log, committed)
    && SameColumns(table, Fold(map[], r.name, Events(decode, r.owner, log[..committed])), r.name)
  }

  ghost predicate StreamOk(decode: LineDecoder, w: World, r: Runner) {
    var log, snap, committed := LogOf(w, r.stream), OffsetIn(w.snapshot, r.stream), CommittedOf(w, r.stream);
    && IsBoundary(log, snap) && snap <= committed <= Next(log, snap)
    && ColumnsOk(decode, r, log, committed, w.table)
    && QueueOk(decode, r, log, snap, committed, w.channel)
  }

  /** Runners share neither stream nor name, and batches in the channel are theirs. */
  ghost predicate AllOk(decode: LineDecoder, runners: set<Runner>, w: World) {
    && (forall r, q :: r in runners && q in runners && r != q ==> r.stream != q.stream && r.name != q.name)
    && (forall i :: 0 <= i < |w.channel| && w.channel[i].Hook? ==> exists r :: r in runners && IsFrom(r, w.channel[i]))
    && (forall r :: r in runners ==> StreamOk(decode, w, r))
  }

  predicate IsFrom(r: Runner, sample: Sample) {
    sample.Hook? && sample.stream == r.stream && sample.runner == r.name
  }

  /** No log has a chunk without a newline. */
  ghost predicate LinesFit(runners: set<Runner>, w: World) {
    forall r :: r in runners ==> !Oversized(LogOf(w, r.stream))
  }

  /** A step of these runners: only their logs are tailed. */
  predicate StepOf(runners: set<Runner>, step: Step) {
    step.Send? ==> step.r in runners
  }

  // ------------------------------------------------------------------ append

  lemma CutGrows(decode: LineDecoder, r: Runner, log: Bytes, longer: Bytes, snap: nat, sample: Sample)
    requires log <= longer && !Oversized(longer) && InFlight(decode, r, log, snap, sample)
    ensures InFlight(decode, r, longer, snap, sample)
  {
    var start: nat :| CutFrom(decode, r, log, snap, sample, start);
    PrefixNotOversized(log, longer);
    NextIsMonotone(log, start, longer, start);
    BoundaryStays(log, longer, start);
    BoundaryStays(log, longer, sample.offset);
    SamePart(log, longer, start, sample.offset);
    assert CutFrom(decode, r, longer, snap, sample, start);
  }

  lemma StreamGrows(decode: LineDecoder, w: World, w': World, r: Runner)
    requires StreamOk(decode, w, r) && LogOf(w, r.stream) <= LogOf(w', r.stream) && !Oversized(LogOf(w', r.stream))
    requires w' == w.(logs := w'.logs)
    ensures StreamOk(decode, w', r)
  {
    var log, longer := LogOf(w, r.stream), LogOf(w', r.stream);
    var snap, committed := OffsetIn(w.snapshot, r.stream), CommittedOf(w, r.stream);
    PrefixNotOversized(log, longer);
    NextIsMonotone(log, snap, longer, snap);
    BoundaryStays(log, longer, snap);
    BoundaryStays(log, longer, committed);
    assert log[..committed] == longer[..committed];
    forall i | Mine(w.channel, i, r.stream) ensures InFlight(decode, r, longer, snap, w.channel[i]) {
      CutGrows(decode, r, log, longer, snap, w.channel[i]);
    }
  }

  // ------------------------------------------------------------ read offsets

  lemma LaterSnapshot(decode: LineDecoder, w: World, w': World, r: Runner)
    requires StreamOk(decode, w, r) && w' == w.(snapshot := w.offsets)
    ensures StreamOk(decode, w', r)
  {
    var log := LogOf(w, r.stream);
    var snap, committed := OffsetIn(w.snapshot, r.stream), CommittedOf(w, r.stream);
    forall i | Mine(w.channel, i, r.stream) ensures InFlight(decode, r, log, committed, w.channel[i]) {
      var start: nat :| CutFrom(decode, r, log, snap, w.channel[i], start);
      assert CutFrom(decode, r, log, committed, w.channel[i], start);
    }
  }

  // -------------------------------------------------------------------- send

  /** A new batch is a cut, ends no earlier than any of its stream in the channel, or than the commit. */
  lemma NewBatch(decode: LineDecoder, w: World, r: Runner)
    requires StreamOk(decode, w, r) && !Oversized(LogOf(w, r.stream))
    ensures var log := LogOf(w, r.stream);
            var batch := Batch(decode, r, w.snapshot, Log(|log|, log));
            batch == [] || (
              && |batch| == 1 && IsFrom(r, batch[0]) && CommittedOf(w, r.stream) <= batch[0].offset
              && InFlight(decode, r, log, OffsetIn(w.snapshot, r.stream), batch[0])
              && forall i :: Mine(w.channel, i, r.stream) ==> w.channel[i].offset <= batch[0].offset)
  {
    var log, snap := LogOf(w, r.stream), OffsetIn(w.snapshot, r.stream);
    var batch := Batch(decode, r, w.snapshot, Log(|log|, log));
    HandsOnWhatItConsumes(decode, r.owner, log, snap);
    StopsBetweenLines(log, snap);
    assert !IsPlainChunk(log, snap);
    if batch != [] {
      assert CutFrom(decode, r, log, snap, batch[0], snap);
      forall i | Mine(w.channel, i, r.stream) ensures w.channel[i].offset <= batch[0].offset {
        var start: nat :| CutFrom(decode, r, log, snap, w.channel[i], start);
        NextIsMonotone(log, start, log, snap);
      }
    }
  }

  lemma QueueGrows(decode: LineDecoder, r: Runner, log: Bytes, snap: nat, committed: nat, channel: seq<Sample>,
      last: Sample)
    requires QueueOk(decode, r, log, snap, committed, channel)
    requires last.Hook? && last.stream == r.stream ==>
      && InFlight(decode, r, log, snap, last) && committed <= last.offset
      && forall i :: Mine(channel, i, r.stream) ==> channel[i].offset <= last.offset
    ensures QueueOk(decode, r, log, snap, committed, channel + [last])
  {
    var longer := channel + [last];
    forall i | Mine(longer, i, r.stream) && i < |channel| ensures Mine(channel, i, r.stream) && longer[i]
        == channel[i] {
    }
  }

  /** A sample joining the channel. */
  lemma StreamQueues(decode: LineDecoder, w: World, r: Runner, last: Sample)
    requires StreamOk(decode, w, r)
    requires last.Hook? && last.stream == r.stream ==>
      && InFlight(decode, r, LogOf(w, r.stream), OffsetIn(w.snapshot, r.stream), last)
      && CommittedOf(w, r.stream) <= last.offset
      && forall i :: Mine(w.channel, i, r.stream) ==> w.channel[i].offset <= last.offset
    ensures StreamOk(decode, w.(channel := w.channel + [last]), r)
  {
    QueueGrows(decode, r, LogOf(w, r.stream), OffsetIn(w.snapshot, r.stream), CommittedOf(w, r.stream), w.channel,
        last);
  }

  lemma StreamSends(decode: LineDecoder, runners: set<Runner>, w: World, q: Runner, r: Runner)
    requires AllOk(decode, runners, w) && q in runners && r in runners && !Oversized(LogOf(w, q.stream))
    ensures StreamOk(decode, After(decode, w, Send(q)), r)
  {
    var log := LogOf(w, q.stream);
    var batch := Batch(decode, q, w.snapshot, Log(|log|, log));
    assert StreamOk(decode, w, q) && StreamOk(decode, w, r);
    NewBatch(decode, w, q);
    if batch == [] {
      assert w.channel + batch == w.channel;
    } else {
      assert batch == [batch[0]];
      StreamQueues(decode, w, r, batch[0]);
    }
  }

  // ------------------------------------------------------------------- write

  lemma QueueShrinks(decode: LineDecoder, r: Runner, log: Bytes, snap: nat, committed: nat, later: nat,
      channel: seq<Sample>)
    requires channel != [] && QueueOk(decode, r, log, snap, committed, channel)
    requires later == committed || (Mine(channel, 0, r.stream) && later == channel[0].offset)
    ensures QueueOk(decode, r, log, snap, later, channel[1..])
  {
    var rest := channel[1..];
    forall i | Mine(rest, i, r.stream) ensures Mine(channel, i + 1, r.stream) && rest[i] == channel[i + 1] {
    }
    forall i | Mine(rest, i, r.stream) ensures InFlight(decode, r, log, snap, rest[i]) && later <= rest[i].offset {
      assert Mine(channel, i + 1, r.stream);
    }
    forall i, j | Mine(rest, i, r.stream) && Mine(rest, j, r.stream) && i < j ensures rest[i].offset <= rest[j].offset {
      assert Mine(channel, i + 1, r.stream) && Mine(channel, j + 1, r.stream);
    }
  }

  /** Committing the head batch keeps the columns the fold of the committed bytes, though its events go
      back over some already applied. */
  lemma CommitKeepsColumns(decode: LineDecoder, r: Runner, log: Bytes, start: nat, committed: nat, end: nat,
      table: Table)
    requires start <= committed <= end && IsBoundary(log, start) && IsBoundary(log, end)
    requires ColumnsOk(decode, r, log, committed, table)
    ensures ColumnsOk(decode, r, log, end, Fold(table, r.name, Events(decode, r.owner, log[start..end])))
  {
    var p := Events(decode, r.owner, log[0..start]);
    var q := Events(decode, r.owner, log[start..committed]);
    var s := Events(decode, r.owner, log[committed..end]);
    Rejoin(decode, r.owner, log, start, committed, end);
    Rejoin(decode, r.owner, log, 0, start, committed);
    Rejoin(decode, r.owner, log, 0, committed, end);
    assert log[..committed] == log[0..committed] && log[..end] == log[0..end];
    ReplayedBatch(map[], r.name, p, q, s);
    FoldKeepsSame(table, Fold(map[], r.name, p + q), r.name, q + s);
  }

  /** The head leaves the channel, and the stream's own commit, if any, moves to `later`. */
  lemma StreamPops(decode: LineDecoder, w: World, w': World, r: Runner)
    requires StreamOk(decode, w, r) && w.channel != []
    requires w'.logs == w.logs && w'.snapshot == w.snapshot && w'.channel == w.channel[1..]
    requires ColumnsOk(decode, r, LogOf(w, r.stream), CommittedOf(w', r.stream), w'.table)
    requires CommittedOf(w', r.stream) == CommittedOf(w, r.stream)
             || (Mine(w.channel, 0, r.stream) && CommittedOf(w', r.stream) == w.channel[0].offset)
    requires CommittedOf(w, r.stream) <= CommittedOf(w', r.stream) <= Next(LogOf(w, r.stream),
        OffsetIn(w.snapshot, r.stream))
    ensures StreamOk(decode, w', r)
  {
    QueueShrinks(decode, r, LogOf(w, r.stream), OffsetIn(w.snapshot, r.stream), CommittedOf(w, r.stream),
      CommittedOf(w', r.stream), w.channel);
  }

  /** A head that is not the stream's, or is lost, leaves its columns alone. */
  lemma OtherWrite(decode: LineDecoder, runners: set<Runner>, w: World, commits: bool, r: Runner)
    requires AllOk(decode, runners, w) && r in runners && w.channel != [] && !(commits && IsFrom(r, w.channel[0]))
    ensures var w' := Written(w, w.channel[0], commits);
            && CommittedOf(w', r.stream) == CommittedOf(w, r.stream)
            && ColumnsOk(decode, r, LogOf(w, r.stream), CommittedOf(w, r.stream), w'.table)
  {
    var head := w.channel[0];
    assert StreamOk(decode, w, r);
    if commits {
      if head.Hook? {
        OtherHead(decode, runners, w, r);
      } else {
        ConclusionsKeepColumns(w.table, head.updates, r.name);
      }
    }
    SameColumnsChain(Written(w, head, commits).table, w.table,
      Fold(map[], r.name, Events(decode, r.owner, LogOf(w, r.stream)[..CommittedOf(w, r.stream)])), r.name);
  }

  lemma OwnWrite(decode: LineDecoder, w: World, r: Runner)
    requires StreamOk(decode, w, r) && w.channel != [] && IsFrom(r, w.channel[0]) && !Oversized(LogOf(w, r.stream))
    ensures var w' := Written(w, w.channel[0], true).(channel := w.channel[1..]);
            StreamOk(decode, w', r) && CommittedOf(w, r.stream) <= CommittedOf(w', r.stream)
  {
    HeadCommits(decode, w, r);
    var w' := Written(w, w.channel[0], true).(channel := w.channel[1..]);
    assert CommittedOf(w', r.stream) == w.channel[0].offset;
    StreamPops(decode, w, w', r);
  }

  lemma StreamWrites(decode: LineDecoder, runners: set<Runner>, w: World, commits: bool, r: Runner)
    requires AllOk(decode, runners, w) && r in runners && w.channel != [] && !Oversized(LogOf(w, r.stream))
    ensures var w' := Written(w, w.channel[0], commits).(channel := w.channel[1..]);
            StreamOk(decode, w', r) && CommittedOf(w, r.stream) <= CommittedOf(w', r.stream)
  {
    assert StreamOk(decode, w, r);
    if commits && IsFrom(r, w.channel[0]) {
      OwnWrite(decode, w, r);
    } else {
      OtherWrite(decode, runners, w, commits, r);
      StreamPops(decode, w, Written(w, w.channel[0], commits).(channel := w.channel[1..]), r);
    }
  }

  lemma SameColumnsChain(a: Table, b: Table, c: Table, runner: string)
    requires (a == b || SameColumns(a, b, runner)) && SameColumns(b, c, runner)
    ensures SameColumns(a, c, runner)
  {
    forall k: Key | k.runner == runner ensures SameRow(RowAt(a, k), RowAt(c, k)) {
      assert SameRow(RowAt(b, k), RowAt(c, k));
    }
  }

  lemma HeadCommits(decode: LineDecoder, w: World, r: Runner)
    requires StreamOk(decode, w, r) && w.channel != [] && IsFrom(r, w.channel[0]) && !Oversized(LogOf(w, r.stream))
    ensures var log, head := LogOf(w, r.stream), w.channel[0];
            && ColumnsOk(decode, r, log, head.offset, Fold(w.table, r.name, head.events))
            && CommittedOf(w, r.stream) <= head.offset <= Next(log, OffsetIn(w.snapshot, r.stream))
  {
    var log, snap, committed := LogOf(w, r.stream), OffsetIn(w.snapshot, r.stream), CommittedOf(w, r.stream);
    var head := w.channel[0];
    assert Mine(w.channel, 0, r.stream);
    var start: nat :| CutFrom(decode, r, log, snap, head, start);
    CommitKeepsColumns(decode, r, log, start, committed, head.offset, w.table);
    NextIsMonotone(log, start, log, snap);
  }

  lemma OtherHead(decode: LineDecoder, runners: set<Runner>, w: World, r: Runner)
    requires AllOk(decode, runners, w) && r in runners && w.channel != []
    requires w.channel[0].Hook? && !IsFrom(r, w.channel[0])
    ensures w.channel[0].stream != r.stream
    ensures SameColumns(Fold(w.table, w.channel[0].runner, w.channel[0].events), w.table, r.name)
  {
    var q :| q in runners && IsFrom(q, w.channel[0]);
    OtherRunner(w.table, w.channel[0].runner, w.channel[0].events, r.name);
  }

  // -------------------------------------------------------------------- runs

  lemma ChannelIsOurs(decode: LineDecoder, runners: set<Runner>, w: World, step: Step)
    requires AllOk(decode, runners, w) && StepOf(runners, step)
    ensures var w' := After(decode, w, step);
            forall i :: 0 <= i < |w'.channel| && w'.channel[i].Hook? ==>
              exists r :: r in runners && IsFrom(r, w'.channel[i])
  {
    var w' := After(decode, w, step);
    forall i | 0 <= i < |w'.channel| && w'.channel[i].Hook?
      ensures exists r :: r in runners && IsFrom(r, w'.channel[i])
    {
      if step.Write? && w.channel != [] {
        assert w'.channel[i] == w.channel[i + 1];
      } else if step.Send? && i >= |w.channel| {
        assert IsFrom(step.r, w'.channel[i]);
      } else {
        assert w'.channel[i] == w.channel[i];
      }
    }
  }

  lemma StreamRestarts(decode: LineDecoder, w: World, r: Runner)
    requires StreamOk(decode, w, r)
    ensures StreamOk(decode, After(decode, w, Restart), r)
  {
    LaterSnapshot(decode, w, w.(snapshot := w.offsets), r);
  }

  lemma StreamKeeps(decode: LineDecoder, runners: set<Runner>, w: World, step: Step, r: Runner)
    requires AllOk(decode, runners, w) && StepOf(runners, step) && LinesFit(runners, After(decode, w, step))
        && r in runners
    ensures var w' := After(decode, w, step);
            StreamOk(decode, w', r) && CommittedOf(w, r.stream) <= CommittedOf(w', r.stream)
  {
    var w' := After(decode, w, step);
    match step
    case Append(stream, bytes) => StreamGrows(decode, w, w', r);
    case ReadOffsets => LaterSnapshot(decode, w, w', r);
    case Send(q) => StreamSends(decode, runners, w, q, r);
    case Conclude(updates) => StreamQueues(decode, w, r, JobConclusions(updates));
    case Write(commits) =>
      if w.channel != [] {
        StreamWrites(decode, runners, w, commits, r);
      }
    case Restart => StreamRestarts(decode, w, r);
  }

  lemma StepKeeps(decode: LineDecoder, runners: set<Runner>, w: World, step: Step)
    requires AllOk(decode, runners, w) && StepOf(runners, step) && LinesFit(runners, After(decode, w, step))
    ensures AllOk(decode, runners, After(decode, w, step))
    ensures forall r :: r in runners ==> CommittedOf(w, r.stream) <= CommittedOf(After(decode, w, step), r.stream)
  {
    ChannelIsOurs(decode, runners, w, step);
    forall r | r in runners
      ensures StreamOk(decode, After(decode, w, step), r)
      ensures CommittedOf(w, r.stream) <= CommittedOf(After(decode, w, step), r.stream)
    {
      StreamKeeps(decode, runners, w, step, r);
    }
  }

  lemma LogGrows(decode: LineDecoder, w: World, step: Step, stream: string)
    ensures LogOf(w, stream) <= LogOf(After(decode, w, step), stream)
  {
  }

  /** Logs only grow, so lines that fit at the end fit throughout. */
  lemma {:induction false} LinesFitBefore(decode: LineDecoder, runners: set<Runner>, w: World, steps: seq<Step>)
    requires LinesFit(runners, AfterAll(decode, w, steps))
    ensures LinesFit(runners, w)
    decreases |steps|
  {
    if steps != [] {
      LinesFitBefore(decode, runners, After(decode, w, steps[0]), steps[1..]);
      forall r | r in runners ensures !Oversized(LogOf(w, r.stream)) {
        LogGrows(decode, w, steps[0], r.stream);
        PrefixNotOversized(LogOf(w, r.stream), LogOf(After(decode, w, steps[0]), r.stream));
      }
    }
  }

  /** In every reachable state, despite stale, overlapping and lost batches and restarts: no stream's
      committed offset has gone back, and each runner's columns are the fold of the events of its log up
      to the committed offset, each once and in order. */
  lemma {:induction false} EveryEventOnce(decode: LineDecoder, runners: set<Runner>, w: World, steps: seq<Step>)
    requires AllOk(decode, runners, w) && forall i :: 0 <= i < |steps| ==> StepOf(runners, steps[i])
    requires LinesFit(runners, AfterAll(decode, w, steps))
    ensures var w' := AfterAll(decode, w, steps);
            && AllOk(decode, runners, w')
            && forall r :: r in runners ==>
                 && CommittedOf(w, r.stream) <= CommittedOf(w', r.stream)
                 && ColumnsOk(decode, r, LogOf(w', r.stream), CommittedOf(w', r.stream), w'.table)
    decreases |steps|
  {
    if steps == [] {
      forall r | r in runners ensures StreamOk(decode, w, r) {
      }
    } else {
      LinesFitBefore(decode, runners, After(decode, w, steps[0]), steps[1..]);
      StepKeeps(decode, runners, w, steps[0]);
      EveryEventOnce(decode, runners, After(decode, w, steps[0]), steps[1..]);
    }
  }

  /** A new database over any logs is such a state. */
  lemma FreshIsOk(decode: LineDecoder, runners: set<Runner>, logs: map<string, Bytes>)
    requires forall r, q :: r in runners && q in runners && r != q ==> r.stream != q.stream && r.name != q.name
    ensures AllOk(decode, runners, World(logs, map[], [], map[], map[]))
  {
    var w := World(logs, map[], [], map[], map[]);
    forall r | r in runners ensures StreamOk(decode, w, r) {
      var log := LogOf(w, r.stream);
      NextIs(log, 0);
      NoEventsInNothing(decode, r.owner);
      assert log[..0] == [];
    }
  }

  lemma NothingToSend(decode: LineDecoder, w: World, r: Runner)
    requires OffsetIn(w.snapshot, r.stream) <= |LogOf(w, r.stream)| && After(decode, w, Send(r)) == w
    ensures Next(LogOf(w, r.stream), OffsetIn(w.snapshot, r.stream)) == OffsetIn(w.snapshot, r.stream)
  {
    var log := LogOf(w, r.stream);
    HandsOnWhatItConsumes(decode, r.owner, log, OffsetIn(w.snapshot, r.stream));
    assert |After(decode, w, Send(r)).channel| == |w.channel| + |Batch(decode, r, w.snapshot, Log(|log|, log))|;
  }

  /** And once a tick finds nothing to send, nothing complete is left out: the columns are those of every
      complete line in the log. */
  lemma CaughtUp(decode: LineDecoder, runners: set<Runner>, w: World, r: Runner)
    requires AllOk(decode, runners, w) && LinesFit(runners, w) && r in runners
    requires w.snapshot == w.offsets && After(decode, w, Send(r)) == w
    ensures var log, committed := LogOf(w, r.stream), CommittedOf(w, r.stream);
            && committed <= |log| && NEWLINE !in log[committed..]
            && SameColumns(w.table, Fold(map[], r.name, Events(decode, r.owner, log[..committed])), r.name)
  {
    var log, committed := LogOf(w, r.stream), CommittedOf(w, r.stream);
    assert StreamOk(decode, w, r);
    NothingToSend(decode, w, r);
    if NEWLINE in log[committed..] {
      CompleteLineAdvances(log, committed);
    }
  }
}
