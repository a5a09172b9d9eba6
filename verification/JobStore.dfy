/** The job table and the tailer's offsets: what one batch of hook events does to them. */
module JobStore {
  import opened Wrappers
  import opened Octets
  import opened Text
  import opened Ingest

  datatype Key = Key(runId: int, runAttempt: int, job: string, runner: string)

  datatype Row = Row(repo: string, org: string, startedAt: Option<int>, completedAt: Option<int>,
      conclusion: Option<string>)

  type Table = map<Key, Row>

  datatype Conclusion = Conclusion(key: Key, conclusion: string)

  // ---------------------------------------------------------------- the code

  function OrgOf(repo: string): string {
    var parts := SplitOnce(repo, '/');
    if parts.Some? then parts.value.0 else ""
  }

  function KeyOf(e: HookEvent, runner: string): Key {
    Key(e.job.runId, e.job.runAttempt, e.job.job, runner)
  }

  function StartTs(e: HookEvent): Option<int> {
    if e.Started? then Some(e.job.ts) else None
  }

  function EndTs(e: HookEvent): Option<int> {
    if e.Completed? then Some(e.job.ts) else None
  }

  function Coalesce<T>(a: Option<T>, b: Option<T>): Option<T> {
    if a.Some? then a else b
  }

  /** The row an event leaves, over the one it finds. */
  function MergedRow(prior: Option<Row>, e: HookEvent): Row {
    if prior.None? then Row(e.job.repo, OrgOf(e.job.repo), StartTs(e), EndTs(e), None)
    else
      prior.value.(startedAt := Coalesce(StartTs(e), prior.value.startedAt),
                   completedAt := Coalesce(EndTs(e), prior.value.completedAt),
                   repo := e.job.repo, org := OrgOf(e.job.repo))
  }

  function RowAt(t: Table, k: Key): Option<Row> {
    if k in t then Some(t[k]) else None
  }

  function Upserted(t: Table, runner: string, e: HookEvent): Table {
    t[KeyOf(e, runner) := MergedRow(RowAt(t, KeyOf(e, runner)), e)]
  }

  function Fold(t: Table, runner: string, events: seq<HookEvent>): Table
    decreases |events|
  {
    if events == [] then t else Fold(Upserted(t, runner, events[0]), runner, events[1..])
  }

  function Concluded(t: Table, u: Conclusion): Table {
    if u.key in t then t[u.key := t[u.key].(conclusion := Some(u.conclusion))] else t
  }

  function ConcludedAll(t: Table, us: seq<Conclusion>): Table
    decreases |us|
  {
    if us == [] then t else ConcludedAll(Concluded(t, us[0]), us[1..])
  }

  class Store {
    var jobEvent: Table
    var ingestOffset: map<string, nat>

    constructor ()
      ensures jobEvent == map[] && ingestOffset == map[]
    {
      jobEvent := map[];
      ingestOffset := map[];
    }

    /** One transaction: the events and the stream's offset are stored together or not at all. */
    method ApplyHookEvents(stream: string, runner: string, events: seq<HookEvent>, offset: nat, commits: bool)
      returns (ok: bool)
      modifies this
      ensures ok == commits
      ensures jobEvent == if commits then Fold(old(jobEvent), runner, events) else old(jobEvent)
      ensures ingestOffset == if commits then old(ingestOffset)[stream := offset] else old(ingestOffset)
    {
      var tx := jobEvent;
      var i := 0;
      while i < |events|
        invariant i <= |events|
        invariant Fold(tx, runner, events[i..]) == Fold(jobEvent, runner, events)
      {
        assert events[i..][0] == events[i] && events[i..][1..] == events[i + 1..];
        tx := Upserted(tx, runner, events[i]);
        i := i + 1;
      }
      if commits {
        jobEvent := tx;
        ingestOffset := ingestOffset[stream := offset];
      }
      ok := commits;
    }

    method ApplyJobConclusions(updates: seq<Conclusion>, commits: bool) returns (ok: bool)
      modifies `jobEvent
      ensures ok == commits
      ensures jobEvent == if commits then ConcludedAll(old(jobEvent), updates) else old(jobEvent)
    {
      var tx := jobEvent;
      var i := 0;
      while i < |updates|
        invariant i <= |updates|
        invariant ConcludedAll(tx, updates[i..]) == ConcludedAll(jobEvent, updates)
      {
        assert updates[i..][0] == updates[i] && updates[i..][1..] == updates[i + 1..];
        tx := Concluded(tx, updates[i]);
        i := i + 1;
      }
      if commits {
        jobEvent := tx;
      }
      ok := commits;
    }
  }

  // --------------------------------------------------------- last write wins

  /** The last value `pick` finds. */
  function Last<T>(events: seq<HookEvent>, pick: HookEvent -> Option<T>): Option<T> {
    if events == [] then None else Coalesce(Last(events[1..], pick), pick(events[0]))
  }

  function StartOf(runner: string, k: Key): HookEvent -> Option<int> {
    (e: HookEvent) => if KeyOf(e, runner) == k then StartTs(e) else None
  }

  function EndOf(runner: string, k: Key): HookEvent -> Option<int> {
    (e: HookEvent) => if KeyOf(e, runner) == k then EndTs(e) else None
  }

  function RepoOf(runner: string, k: Key): HookEvent -> Option<string> {
    (e: HookEvent) => if KeyOf(e, runner) == k then Some(e.job.repo) else None
  }

  /** What a batch makes of one row: each column is its last value in the batch, or what it was. */
  function LastWrites(prior: Option<Row>, runner: string, events: seq<HookEvent>, k: Key): Option<Row> {
    var repo := Last(events, RepoOf(runner, k));
    if repo.None? then prior
    else
      var old_ := if prior.Some? then prior.value else Row("", "", None, None, None);
      Some(Row(repo.value, OrgOf(repo.value),
               Coalesce(Last(events, StartOf(runner, k)), old_.startedAt),
               Coalesce(Last(events, EndOf(runner, k)), old_.completedAt), old_.conclusion))
  }

  /** A row with no event for it has no start or end in the batch either. */
  lemma {:induction false} NoRepoNoTimes(runner: string, events: seq<HookEvent>, k: Key)
    requires Last(events, RepoOf(runner, k)).None?
    ensures Last(events, StartOf(runner, k)).None? && Last(events, EndOf(runner, k)).None?
  {
    if events != [] {
      NoRepoNoTimes(runner, events[1..], k);
    }
  }

  /** Folding a batch row by row is last-write-wins. */
  lemma {:induction false} FoldIsLastWrites(t: Table, runner: string, events: seq<HookEvent>, k: Key)
    ensures RowAt(Fold(t, runner, events), k) == LastWrites(RowAt(t, k), runner, events, k)
    decreases |events|
  {
    if events != [] {
      FoldIsLastWrites(Upserted(t, runner, events[0]), runner, events[1..], k);
      if Last(events[1..], RepoOf(runner, k)).None? {
        NoRepoNoTimes(runner, events[1..], k);
      }
    }
  }

  lemma {:induction false} FoldConcat(t: Table, runner: string, a: seq<HookEvent>, b: seq<HookEvent>)
    ensures Fold(t, runner, a + b) == Fold(Fold(t, runner, a), runner, b)
    decreases |a|
  {
    if a == [] {
      assert a + b == b;
    } else {
      assert (a + b)[1..] == a[1..] + b;
      FoldConcat(Upserted(t, runner, a[0]), runner, a[1..], b);
    }
  }

  lemma SameRowsSameTable(t: Table, u: Table)
    requires forall k :: RowAt(t, k) == RowAt(u, k)
    ensures t == u
  {
    forall k ensures (k in t <==> k in u) && (k in t ==> t[k] == u[k]) {
      assert RowAt(t, k) == RowAt(u, k);
    }
  }

  /** Applying a batch twice is applying it once. */
  lemma FoldTwice(t: Table, runner: string, events: seq<HookEvent>)
    ensures Fold(Fold(t, runner, events), runner, events) == Fold(t, runner, events)
  {
    var once := Fold(t, runner, events);
    forall k ensures RowAt(Fold(once, runner, events), k) == RowAt(once, k) {
      FoldIsLastWrites(t, runner, events, k);
      FoldIsLastWrites(once, runner, events, k);
    }
    SameRowsSameTable(Fold(once, runner, events), once);
  }

  /** A batch that goes back over events already applied, and on past them, leaves the table as if all
      had been applied once. */
  lemma ReplayedBatch(t: Table, runner: string, p: seq<HookEvent>, q: seq<HookEvent>, r: seq<HookEvent>)
    ensures Fold(Fold(t, runner, p + q), runner, q + r) == Fold(t, runner, p + q + r)
  {
    FoldConcat(t, runner, p, q);
    FoldConcat(Fold(t, runner, p + q), runner, q, r);
    FoldTwice(Fold(t, runner, p), runner, q);
    FoldConcat(t, runner, p + q, r);
  }

  /** A batch that stops short of events already applied may not be applied: the table goes back. */
  lemma StaleBatchRegresses()
    ensures var early, late := Started(JobRef(1, "o/r", 7, 1, "b")), Started(JobRef(2, "o/r", 7, 1, "b"));
            Fold(Fold(map[], "r0", [early, late]), "r0", [early]) != Fold(map[], "r0", [early, late])
  {
    var early, late := Started(JobRef(1, "o/r", 7, 1, "b")), Started(JobRef(2, "o/r", 7, 1, "b"));
    var k := Key(7, 1, "b", "r0");
    var one, two, both := [early], [late], [early, late];
    assert one[1..] == [] && two[1..] == [] && both[1..] == two;
    assert Last(one, StartOf("r0", k)) == Coalesce(Last(one[1..], StartOf("r0", k)), Some(1));
    assert Last(two, StartOf("r0", k)) == Coalesce(Last(two[1..], StartOf("r0", k)), Some(2));
    assert Last(one, RepoOf("r0", k)) == Coalesce(Last(one[1..], RepoOf("r0", k)), Some("o/r"));
    assert Last(two, RepoOf("r0", k)) == Coalesce(Last(two[1..], RepoOf("r0", k)), Some("o/r"));
    FoldIsLastWrites(map[], "r0", both, k);
    FoldIsLastWrites(Fold(map[], "r0", both), "r0", one, k);
  }

  // ----------------------------------------------------------------- columns

  /** The rows of one runner agree but for their conclusions. */
  ghost predicate SameColumns(t: Table, u: Table, runner: string) {
    forall k: Key :: k.runner == runner ==> SameRow(RowAt(t, k), RowAt(u, k))
  }

  predicate SameRow(a: Option<Row>, b: Option<Row>) {
    (a.Some? <==> b.Some?) && (a.Some? ==> a.value.(conclusion := None) == b.value.(conclusion := None))
  }

  lemma FoldKeepsSame(t: Table, u: Table, runner: string, events: seq<HookEvent>)
    requires SameColumns(t, u, runner)
    ensures SameColumns(Fold(t, runner, events), Fold(u, runner, events), runner)
  {
    forall k: Key | k.runner == runner
      ensures SameRow(RowAt(Fold(t, runner, events), k), RowAt(Fold(u, runner, events), k))
    {
      FoldIsLastWrites(t, runner, events, k);
      FoldIsLastWrites(u, runner, events, k);
      assert SameRow(RowAt(t, k), RowAt(u, k));
    }
  }

  lemma {:induction false} OtherRunner(t: Table, runner: string, events: seq<HookEvent>, other: string)
    requires other != runner
    ensures SameColumns(Fold(t, runner, events), t, other)
    decreases |events|
  {
    if events != [] {
      var u := Upserted(t, runner, events[0]);
      OtherRunner(u, runner, events[1..], other);
      forall k: Key | k.runner == other ensures SameRow(RowAt(Fold(t, runner, events), k), RowAt(t, k)) {
        assert RowAt(u, k) == RowAt(t, k);
        assert SameRow(RowAt(Fold(u, runner, events[1..]), k), RowAt(u, k));
      }
    }
  }

  /** Conclusions add no row and change no other column. */
  lemma {:induction false} ConclusionsKeepColumns(t: Table, us: seq<Conclusion>, runner: string)
    ensures SameColumns(ConcludedAll(t, us), t, runner)
    decreases |us|
  {
    if us != [] {
      var u := Concluded(t, us[0]);
      ConclusionsKeepColumns(u, us[1..], runner);
      forall k: Key | k.runner == runner ensures SameRow(RowAt(ConcludedAll(t, us), k), RowAt(t, k)) {
        assert SameRow(RowAt(u, k), RowAt(t, k));
        assert SameRow(RowAt(ConcludedAll(u, us[1..]), k), RowAt(u, k));
      }
    }
  }

  /** A row's organisation is the log owner's, whatever events made it. */
  lemma {:induction false} OrgIsOwner(decode: LineDecoder, owner: string, lines: seq<Bytes>, t: Table, runner: string,
      k: Key)
    requires k in Fold(t, runner, EventsOf(decode, owner, lines)) && (k in t ==> EqIgnoreCase(t[k].org, owner))
    ensures EqIgnoreCase(Fold(t, runner, EventsOf(decode, owner, lines))[k].org, owner)
    decreases |lines|
  {
    if lines != [] {
      var e := ParseEventLine(decode, owner, lines[0]);
      var rest := EventsOf(decode, owner, lines[1..]);
      if e.None? {
        assert EventsOf(decode, owner, lines) == rest;
        OrgIsOwner(decode, owner, lines[1..], t, runner, k);
      } else {
        var events := EventsOf(decode, owner, lines);
        assert events[0] == e.value && events[1..] == rest;
        OrgIsOwner(decode, owner, lines[1..], Upserted(t, runner, e.value), runner, k);
      }
    }
  }
}
