/** What the job table says, line by line: the columns against the log's own lines. */
module JobColumns {
  import opened Wrappers
  import opened Octets
  import opened Text
  import opened Ingest
  import opened JobStore
  import opened IngestProtocol

  // ------------------------------------------------------------------- events

  predicate IsOf(e: HookEvent, k: Key) {
    e.job.runId == k.runId && e.job.runAttempt == k.runAttempt && e.job.job == k.job
  }

  function AnyOf(k: Key): HookEvent -> bool {
    (e: HookEvent) => IsOf(e, k)
  }

  function StartsOf(k: Key): HookEvent -> bool {
    (e: HookEvent) => IsOf(e, k) && e.Started?
  }

  function EndsOf(k: Key): HookEvent -> bool {
    (e: HookEvent) => IsOf(e, k) && e.Completed?
  }

  ghost predicate IsLast(events: seq<HookEvent>, of: HookEvent -> bool, i: nat) {
    i < |events| && of(events[i]) && forall j :: i < j < |events| ==> !of(events[j])
  }

  /** `Last` is what the last event it picks from has. */
  lemma {:induction false} LastIs<T>(events: seq<HookEvent>, pick: HookEvent -> Option<T>, of: HookEvent -> bool)
    requires forall e :: of(e) <==> pick(e).Some?
    ensures Last(events, pick).None? <==> forall i :: 0 <= i < |events| ==> !of(events[i])
    ensures forall i: nat :: IsLast(events, of, i) ==> Last(events, pick) == pick(events[i])
  {
    if events != [] {
      var rest := events[1..];
      LastIs(rest, pick, of);
      forall i: nat | IsLast(events, of, i) ensures Last(events, pick) == pick(events[i]) {
        assert forall j :: 0 <= j < |rest| ==> rest[j] == events[j + 1];
        if i > 0 {
          assert IsLast(rest, of, i - 1);
        }
      }
      if forall i :: 0 <= i < |events| ==> !of(events[i]) {
        assert forall j :: 0 <= j < |rest| ==> rest[j] == events[j + 1];
      }
      if i :| 0 <= i < |events| && of(events[i]) {
        assert i > 0 ==> rest[i - 1] == events[i];
      }
    }
  }

  // -------------------------------------------------------------------- lines

  /** Line `n` is the last to tell an event that meets `of`, and tells `e`. */
  ghost predicate IsLastLine(decode: LineDecoder, owner: string, lines: seq<Bytes>, of: HookEvent -> bool,
                             n: nat, e: HookEvent) {
    && n < |lines| && Tells(decode, owner, lines[n], e) && of(e)
    && forall m, f :: n < m < |lines| && Tells(decode, owner, lines[m], f) ==> !of(f)
  }

  ghost predicate NoLine(decode: LineDecoder, owner: string, lines: seq<Bytes>, of: HookEvent -> bool) {
    forall m: nat, f :: m < |lines| && Tells(decode, owner, lines[m], f) ==> !of(f)
  }

  /** `value` is what the last such line's event has, if there is such a line. */
  ghost predicate IsFromLast<T(!new)>(decode: LineDecoder, owner: string, lines: seq<Bytes>, of: HookEvent -> bool,
                                      get: HookEvent -> T, value: Option<T>) {
    && (NoLine(decode, owner, lines, of) ==> value == None)
    && forall n: nat, e :: IsLastLine(decode, owner, lines, of, n, e) ==> value == Some(get(e))
  }

  lemma LastLineIsLast(decode: LineDecoder, owner: string, lines: seq<Bytes>, events: seq<HookEvent>, from: seq<nat>,
                       of: HookEvent -> bool, n: nat, e: HookEvent)
    requires AreTold(decode, owner, lines, events, from) && IsLastLine(decode, owner, lines, of, n, e)
    ensures exists i: nat :: IsLast(events, of, i) && events[i] == e
  {
    assert n in from;
    var i :| 0 <= i < |from| && from[i] == n;
    forall j | i < j < |events| ensures !of(events[j]) {
      assert n < from[j] < |lines| && Tells(decode, owner, lines[from[j]], events[j]);
    }
    assert IsLast(events, of, i) && events[i] == e;
  }

  lemma LastIsFromLast<T(!new)>(decode: LineDecoder, owner: string, lines: seq<Bytes>, events: seq<HookEvent>,
                                from: seq<nat>, of: HookEvent -> bool, pick: HookEvent -> Option<T>,
                                get: HookEvent -> T)
    requires AreTold(decode, owner, lines, events, from)
    requires forall e :: pick(e) == if of(e) then Some(get(e)) else None
    ensures IsFromLast(decode, owner, lines, of, get, Last(events, pick))
  {
    LastIs(events, pick, of);
    if NoLine(decode, owner, lines, of) {
      forall i | 0 <= i < |events| ensures !of(events[i]) {
        assert Tells(decode, owner, lines[from[i]], events[i]);
      }
    }
    forall n: nat, e | IsLastLine(decode, owner, lines, of, n, e) ensures Last(events, pick) == Some(get(e)) {
      LastLineIsLast(decode, owner, lines, events, from, of, n, e);
      var i: nat :| IsLast(events, of, i) && events[i] == e;
    }
  }

  // ------------------------------------------------------------------ columns

  function RepoIn(row: Option<Row>): Option<string> {
    if row.Some? then Some(row.value.repo) else None
  }

  function StartIn(row: Option<Row>): Option<int> {
    if row.Some? then row.value.startedAt else None
  }

  function EndIn(row: Option<Row>): Option<int> {
    if row.Some? then row.value.completedAt else None
  }

  /** What `lines` say of a job: there is a row if some line tells an event of it; it started and ended when the
      last start and the last end say, in the repository the last event names. */
  ghost predicate SaysLines(decode: LineDecoder, owner: string, lines: seq<Bytes>, k: Key, row: Option<Row>) {
    && (row.None? <==> NoLine(decode, owner, lines, AnyOf(k)))
    && IsFromLast(decode, owner, lines, AnyOf(k), (e: HookEvent) => e.job.repo, RepoIn(row))
    && IsFromLast(decode, owner, lines, StartsOf(k), (e: HookEvent) => e.job.ts, StartIn(row))
    && IsFromLast(decode, owner, lines, EndsOf(k), (e: HookEvent) => e.job.ts, EndIn(row))
  }

  lemma RowIsLastWrites(runner: string, events: seq<HookEvent>, k: Key)
    ensures var row := RowAt(Fold(map[], runner, events), k);
            && RepoIn(row) == Last(events, RepoOf(runner, k))
            && StartIn(row) == Last(events, StartOf(runner, k)) && EndIn(row) == Last(events, EndOf(runner, k))
  {
    FoldIsLastWrites(map[], runner, events, k);
    if Last(events, RepoOf(runner, k)).None? {
      NoRepoNoTimes(runner, events, k);
    }
  }

  lemma FoldSaysLines(decode: LineDecoder, owner: string, lines: seq<Bytes>, k: Key)
    ensures SaysLines(decode, owner, lines, k, RowAt(Fold(map[], k.runner, EventsOf(decode, owner, lines)), k))
  {
    var events := EventsOf(decode, owner, lines);
    var from := EveryLineIsTold(decode, owner, lines);
    var row := RowAt(Fold(map[], k.runner, events), k);
    RowIsLastWrites(k.runner, events, k);
    LastIsFromLast(decode, owner, lines, events, from, AnyOf(k), RepoOf(k.runner, k), (e: HookEvent) => e.job.repo);
    LastIsFromLast(decode, owner, lines, events, from, StartsOf(k), StartOf(k.runner, k), (e: HookEvent) => e.job.ts);
    LastIsFromLast(decode, owner, lines, events, from, EndsOf(k), EndOf(k.runner, k), (e: HookEvent) => e.job.ts);
    if row.None? {
      LastIs(events, RepoOf(k.runner, k), AnyOf(k));
      forall m: nat, f | m < |lines| && Tells(decode, owner, lines[m], f) ensures !IsOf(f, k) {
        assert m in from;
        var i :| 0 <= i < |from| && from[i] == m;
        assert events[i] == f;
      }
    }
  }

  lemma SaysTheSame(decode: LineDecoder, owner: string, lines: seq<Bytes>, k: Key, a: Option<Row>, b: Option<Row>)
    requires SaysLines(decode, owner, lines, k, a) && SameRow(a, b)
    ensures SaysLines(decode, owner, lines, k, b)
  {
    assert RepoIn(a) == RepoIn(b) && StartIn(a) == StartIn(b) && EndIn(a) == EndIn(b);
  }

  /** The lines committed of a runner's log. */
  function LinesOf(w: World, r: Runner): seq<Bytes>
    requires CommittedOf(w, r.stream) <= |LogOf(w, r.stream)|
  {
    SplitAll(LogOf(w, r.stream)[..CommittedOf(w, r.stream)], NEWLINE)
  }

  lemma ColumnsSayLines(decode: LineDecoder, w: World, r: Runner, k: Key)
    requires ColumnsOk(decode, r, LogOf(w, r.stream), CommittedOf(w, r.stream), w.table) && k.runner == r.name
    ensures SaysLines(decode, r.owner, LinesOf(w, r), k, RowAt(w.table, k))
  {
    var lines := LinesOf(w, r);
    var folded := Fold(map[], r.name, EventsOf(decode, r.owner, lines));
    FoldSaysLines(decode, r.owner, lines, k);
    assert SameRow(RowAt(w.table, k), RowAt(folded, k));
    SaysTheSame(decode, r.owner, lines, k, RowAt(folded, k), RowAt(w.table, k));
  }

  /** In every reachable state, each job's row is there, and dated, as the committed lines of its runner's log
      say: the last of them that tells its start, and the last that tells its end. */
  lemma EveryRowSaysItsLines(decode: LineDecoder, runners: set<Runner>, w: World, steps: seq<Step>, r: Runner, k: Key)
    requires AllOk(decode, runners, w) && forall i :: 0 <= i < |steps| ==> StepOf(runners, steps[i])
    requires LinesFit(runners, AfterAll(decode, w, steps)) && r in runners && k.runner == r.name
    ensures var w' := AfterAll(decode, w, steps);
            && CommittedOf(w', r.stream) <= |LogOf(w', r.stream)|
            && SaysLines(decode, r.owner, LinesOf(w', r), k, RowAt(w'.table, k))
  {
    EveryEventOnce(decode, runners, w, steps);
    ColumnsSayLines(decode, AfterAll(decode, w, steps), r, k);
  }

  /** A schedule of ticks hands on what each line it went over tells, once a line and in order. */
  lemma EveryLineIsHandedOn(decode: LineDecoder, owner: string, logs: seq<Bytes>, final: Bytes, offset: nat)
    returns (from: seq<nat>)
    requires Growing(logs, final) && !Oversized(final) && IsBoundary(Upcoming(logs, final), offset)
    ensures var (events, end) := Ticks(decode, owner, logs, offset);
            && offset <= end <= |final|
            && AreTold(decode, owner, SplitAll(final[offset..end], NEWLINE), events, from)
  {
    EachLineOnce(decode, owner, logs, final, offset);
    from := EveryLineIsTold(decode, owner, SplitAll(final[offset..Ticks(decode, owner, logs, offset).1], NEWLINE));
  }

  // ------------------------------------------------------------- conclusions

  /** `us[i]` is the last update of `k`. */
  ghost predicate IsLastUpdate(us: seq<Conclusion>, k: Key, i: nat) {
    i < |us| && us[i].key == k && forall j :: i < j < |us| ==> us[j].key != k
  }

  /** An existing row gets the last conclusion it is sent, or keeps its own; no row is made. */
  lemma {:induction false} ConclusionLands(t: Table, us: seq<Conclusion>, k: Key)
    ensures var t' := ConcludedAll(t, us);
            && (k in t' <==> k in t)
            && (k in t && (forall i :: 0 <= i < |us| ==> us[i].key != k) ==> t'[k] == t[k])
            && forall i: nat :: IsLastUpdate(us, k, i) && k in t ==>
                 t'[k] == t[k].(conclusion := Some(us[i].conclusion))
    decreases |us|
  {
    if us != [] {
      var rest, u := us[1..], Concluded(t, us[0]);
      ConclusionLands(u, rest, k);
      assert forall j :: 0 <= j < |rest| ==> rest[j] == us[j + 1];
      forall i: nat | IsLastUpdate(us, k, i) && k in t
        ensures ConcludedAll(t, us)[k] == t[k].(conclusion := Some(us[i].conclusion))
      {
        if i > 0 {
          assert IsLastUpdate(rest, k, i - 1);
        }
      }
    }
  }

  lemma OrgIsBeforeTheSlash(org: string, name: string)
    requires '/' !in org
    ensures OrgOf(org + "/" + name) == org && OrgOf(org) == ""
  {
    assert org + "/" + name == org + ['/'] + name;
    SplitOnceAt(org, '/', name);
  }
}
