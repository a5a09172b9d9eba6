/** Local sampler writes: runner and host samples, and the liveness edge keyed by install dir. */
module LocalWriter {
  import opened Wrappers
  import opened Seqs
  import opened Readings
  import opened EdgeState
  import opened Timeline

  datatype RunnerSample = RunnerSample(ts: int, agent: Agent, name: string, liveness: Liveness, dir: string)

  datatype Tables<H> = Tables(runners: seq<RunnerSample>, hosts: seq<H>, state: map<string, State<Liveness>>)

  function ByDir(s: RunnerSample): Reading<string, Liveness, string> {
    Reading(s.ts, s.dir, s.liveness, s.name)
  }

  /** The row as the timeline partitions it. */
  function ByAgent(s: RunnerSample): LocalRow {
    Reading(s.ts, s.agent, s.liveness, s.name)
  }

  function WriteState(m: map<string, State<Liveness>>, rows: seq<RunnerSample>): map<string, State<Liveness>> {
    if rows == [] then m
    else
      var r := rows[|rows| - 1];
      Upsert(WriteState(m, rows[..|rows| - 1]), r.dir, r.liveness, r.ts)
  }

  function WriteTick<H>(t: Tables<H>, rows: seq<RunnerSample>, host: H): Tables<H> {
    Tables(t.runners + rows, t.hosts + [host], WriteState(t.state, rows))
  }

  class Writer<H> {
    var runners: seq<RunnerSample>
    var hosts: seq<H>
    var state: map<string, State<Liveness>>

    function Contents(): Tables<H>
      reads this
    {
      Tables(runners, hosts, state)
    }

    /** One transaction: `commits` is whether SQLite committed it. */
    method WriteLocal(rows: seq<RunnerSample>, host: H, commits: bool) returns (ok: bool)
      modifies this
      ensures ok == commits
      ensures Contents() == if ok then WriteTick(old(Contents()), rows, host) else old(Contents())
    {
      var added: seq<RunnerSample> := [];
      for i := 0 to |rows|
        invariant added == rows[..i]
      {
        added := added + [rows[i]];
      }
      var edges := state;
      for i := 0 to |rows|
        invariant edges == WriteState(old(state), rows[..i])
      {
        var r := rows[i];
        edges := Upsert(edges, r.dir, r.liveness, r.ts);
        assert rows[..i + 1][..i] == rows[..i];
      }
      assert rows[..|rows|] == rows;
      if commits {
        runners, hosts, state := runners + added, hosts + [host], edges;
      }
      return commits;
    }
  }

  // ------------------------------------------------------------------ lemmas

  /** Each `runner_state` row stays the summary of its dir's samples, over every committed tick. */
  lemma {:induction false} LivenessStateIsSummary(
    before: seq<RunnerSample>, m: map<string, State<Liveness>>, rows: seq<RunnerSample>)
    requires StateIsSummary(Map(before, ByDir), m)
    ensures StateIsSummary(Map(before + rows, ByDir), WriteState(m, rows))
  {
    if rows == [] {
      assert before + rows == before;
    } else {
      var front, r := rows[..|rows| - 1], rows[|rows| - 1];
      LivenessStateIsSummary(before, m, front);
      UpsertKeepsSummary(Map(before + front, ByDir), WriteState(m, front), ByDir(r));
      assert Map(before + rows, ByDir) == Map(before + front, ByDir) + [ByDir(r)];
    }
  }

  // ------------------------------------------------------------------- prune

  /** A committed tick, or a prune that keeps some rows of the sample tables. */
  datatype Step<!H> = Write(rows: seq<RunnerSample>, host: H) | Prune(keep: RunnerSample -> bool, keepHost: H -> bool)

  function RunSteps<H>(t: Tables<H>, steps: seq<Step<H>>): Tables<H> {
    if steps == [] then t
    else
      var prev := RunSteps(t, steps[..|steps| - 1]);
      match steps[|steps| - 1]
      case Write(rows, host) => WriteTick(prev, rows, host)
      case Prune(keep, keepHost) => prev.(runners := Where(prev.runners, keep), hosts := Where(prev.hosts, keepHost))
  }

  /** Every sample written, in order, and every host row. */
  function Written<H>(steps: seq<Step<H>>): seq<RunnerSample> {
    if steps == [] then []
    else Written(steps[..|steps| - 1]) + (if steps[|steps| - 1].Write? then steps[|steps| - 1].rows else [])
  }

  function WrittenHosts<H>(steps: seq<Step<H>>): seq<H> {
    if steps == [] then []
    else WrittenHosts(steps[..|steps| - 1]) + (if steps[|steps| - 1].Write? then [steps[|steps| - 1].host] else [])
  }

  function NewTables<H>(): Tables<H> {
    Tables([], [], map[])
  }

  /** Of runs without a prune, the sample tables hold what every tick wrote, in order, each row once; and the
      state is the summary of the samples they hold. */
  lemma {:induction false} TicksAreStored<H>(steps: seq<Step<H>>)
    requires forall i :: 0 <= i < |steps| ==> steps[i].Write?
    ensures var t := RunSteps(NewTables<H>(), steps);
            && t.runners == Written(steps) && t.hosts == WrittenHosts(steps) && |t.hosts| == |steps|
            && StateIsSummary(Map(t.runners, ByDir), t.state)
  {
    PruningKeepsState(steps);
    if steps != [] {
      TicksAreStored(steps[..|steps| - 1]);
    }
  }

  /** Some tick wrote `x`, and no prune since has dropped it. */
  ghost predicate IsStored<H>(steps: seq<Step<H>>, x: RunnerSample, i: nat) {
    && i < |steps| && steps[i].Write? && x in steps[i].rows
    && forall j :: i < j < |steps| && steps[j].Prune? ==> steps[j].keep(x)
  }

  ghost predicate IsStoredHost<H>(steps: seq<Step<H>>, x: H, i: nat) {
    && i < |steps| && steps[i].Write? && x == steps[i].host
    && forall j :: i < j < |steps| && steps[j].Prune? ==> steps[j].keepHost(x)
  }

  /** Of any run, they hold exactly the rows written and not pruned since. */
  lemma StoredExactly<H>(steps: seq<Step<H>>)
    ensures var t := RunSteps(NewTables<H>(), steps);
            && (forall x :: x in t.runners <==> exists i: nat :: IsStored(steps, x, i))
            && (forall x :: x in t.hosts <==> exists i: nat :: IsStoredHost(steps, x, i))
  {
    forall x ensures x in RunSteps(NewTables<H>(), steps).runners <==> exists i: nat :: IsStored(steps, x, i) {
      SampleIsStored(steps, x);
    }
    forall x ensures x in RunSteps(NewTables<H>(), steps).hosts <==> exists i: nat :: IsStoredHost(steps, x, i) {
      HostIsStored(steps, x);
    }
  }

  lemma {:induction false} SampleIsStored<H>(steps: seq<Step<H>>, x: RunnerSample)
    ensures x in RunSteps(NewTables<H>(), steps).runners <==> exists i: nat :: IsStored(steps, x, i)
  {
    if steps != [] {
      var n := |steps| - 1;
      var front, last := steps[..n], steps[n];
      SampleIsStored(front, x);
      StoredStep(steps);
      forall i: nat | i < n
        ensures IsStored(steps, x, i) <==> IsStored(front, x, i) && (last.Prune? ==> last.keep(x))
      {
        assert front[i] == steps[i];
        assert forall j :: 0 <= j < n ==> front[j] == steps[j];
      }
      assert IsStored(steps, x, n) <==> last.Write? && x in last.rows;
    }
  }

  lemma {:induction false} HostIsStored<H>(steps: seq<Step<H>>, x: H)
    ensures x in RunSteps(NewTables<H>(), steps).hosts <==> exists i: nat :: IsStoredHost(steps, x, i)
  {
    if steps != [] {
      var n := |steps| - 1;
      var front, last := steps[..n], steps[n];
      HostIsStored(front, x);
      StoredStep(steps);
      forall i: nat | i < n
        ensures IsStoredHost(steps, x, i) <==> IsStoredHost(front, x, i) && (last.Prune? ==> last.keepHost(x))
      {
        assert front[i] == steps[i];
        assert forall j :: 0 <= j < n ==> front[j] == steps[j];
      }
      assert IsStoredHost(steps, x, n) <==> last.Write? && x == last.host;
    }
  }

  lemma StoredStep<H>(steps: seq<Step<H>>)
    requires steps != []
    ensures var n := |steps| - 1;
            var prev, t := RunSteps(NewTables<H>(), steps[..n]), RunSteps(NewTables<H>(), steps);
            match steps[n]
            case Write(rows, host) => t.runners == prev.runners + rows && t.hosts == prev.hosts + [host]
            case Prune(keep, keepHost) =>
              t.runners == Where(prev.runners, keep) && t.hosts == Where(prev.hosts, keepHost)
  {
  }

  /** Pruning disturbs no `runner_state` row: over every interleaving of ticks and prunes, the table is the
      summary of every sample written, pruned or not. */
  lemma {:induction false} PruningKeepsState<H>(steps: seq<Step<H>>)
    ensures StateIsSummary(Map(Written(steps), ByDir), RunSteps(NewTables<H>(), steps).state)
  {
    if steps != [] {
      var front, last := steps[..|steps| - 1], steps[|steps| - 1];
      PruningKeepsState(front);
      if last.Write? {
        LivenessStateIsSummary(Written(front), RunSteps(NewTables<H>(), front).state, last.rows);
      } else {
        assert Written(steps) == Written(front);
      }
    }
  }

  // ------------------------------------------------------------ two kinds of key

  /** Install dirs and agents name the same runners. */
  ghost predicate DirsAreAgents(rows: seq<RunnerSample>, agentOf: string -> Agent) {
    && (forall s :: s in rows ==> s.agent == agentOf(s.dir))
    && (forall a, b :: a in rows && b in rows && a.agent == b.agent ==> a.dir == b.dir)
  }

  function Rekey(agentOf: string -> Agent, r: Reading<string, Liveness, string>): LocalRow {
    Reading(r.ts, agentOf(r.key), r.value, r.info)
  }

  /** `b` is `a` keyed by agent instead of dir. */
  ghost predicate Rekeyed(a: seq<Reading<string, Liveness, string>>, b: seq<LocalRow>, agentOf: string -> Agent) {
    |a| == |b| && forall i :: 0 <= i < |a| ==> b[i] == Rekey(agentOf, a[i])
  }

  ghost predicate Separates(agentOf: string -> Agent, dirs: set<string>) {
    forall c, d :: c in dirs && d in dirs && agentOf(c) == agentOf(d) ==> c == d
  }

  ghost predicate KeysIn(a: seq<Reading<string, Liveness, string>>, dirs: set<string>) {
    forall x :: x in a ==> x.key in dirs
  }

  lemma {:induction false} AsOfRekeyed(
    a: seq<Reading<string, Liveness, string>>, b: seq<LocalRow>, agentOf: string -> Agent, dirs: set<string>,
    dir: string, t: int)
    requires Rekeyed(a, b, agentOf) && KeysIn(a, dirs) && Separates(agentOf, dirs) && dir in dirs
    ensures var x := AsOf(a, dir, t);
            AsOf(b, agentOf(dir), t) == if x.Some? then Some(Rekey(agentOf, x.value)) else None
  {
    if a != [] {
      assert a[0] in a;
      assert forall x :: x in a[1..] ==> x in a;
      AsOfRekeyed(a[1..], b[1..], agentOf, dirs, dir, t);
    }
  }

  lemma RekeyedConcat(
    a: seq<Reading<string, Liveness, string>>, b: seq<LocalRow>,
    c: seq<Reading<string, Liveness, string>>, d: seq<LocalRow>, agentOf: string -> Agent)
    requires Rekeyed(a, b, agentOf) && Rekeyed(c, d, agentOf)
    ensures Rekeyed(a + c, b + d, agentOf)
  {
  }

  lemma LagRekeyed(
    a: seq<Reading<string, Liveness, string>>, b: seq<LocalRow>, agentOf: string -> Agent, dirs: set<string>,
    x: Reading<string, Liveness, string>)
    requires Rekeyed(a, b, agentOf) && KeysIn(a, dirs) && Separates(agentOf, dirs) && x.key in dirs
    ensures Lag(b, Rekey(agentOf, x)) == if Lag(a, x).Some? then Some(Rekey(agentOf, Lag(a, x).value)) else None
  {
    AsOfRekeyed(a, b, agentOf, dirs, x.key, x.ts - 1);
  }

  /** Whether a reading is an edge does not depend on which of the two keys it goes by. */
  lemma SameEdge(
    a: seq<Reading<string, Liveness, string>>, b: seq<LocalRow>, agentOf: string -> Agent, dirs: set<string>,
    x: Reading<string, Liveness, string>)
    requires Rekeyed(a, b, agentOf) && KeysIn(a, dirs) && Separates(agentOf, dirs) && x.key in dirs
    ensures ArrivalAt(b, Rekey(agentOf, x)) == if ArrivalAt(a, x) == [] then [] else [Rekey(agentOf, x)]
  {
    LagRekeyed(a, b, agentOf, dirs, x);
  }

  /** `[x]` if `x` arrives at an edge among `rows`. */
  function ArrivalAt<K(==), V(==), X>(rows: seq<Reading<K, V, X>>, x: Reading<K, V, X>): seq<Reading<K, V, X>> {
    var lag := Lag(rows, x);
    if lag.Some? && lag.value.value != x.value then [x] else []
  }

  lemma {:induction false} ArrivalsRekeyed(
    a: seq<Reading<string, Liveness, string>>, b: seq<LocalRow>, agentOf: string -> Agent, dirs: set<string>,
    pa: seq<Reading<string, Liveness, string>>, pb: seq<LocalRow>)
    requires Rekeyed(a, b, agentOf) && KeysIn(a, dirs) && Separates(agentOf, dirs)
    requires Rekeyed(pa, pb, agentOf) && KeysIn(pa, dirs)
    ensures Rekeyed(Arrivals(ChangesIn(a, pa)), Arrivals(ChangesIn(b, pb)), agentOf)
    ensures KeysIn(Arrivals(ChangesIn(a, pa)), dirs)
  {
    if pa != [] {
      assert pa[0] in pa && pb[0] == Rekey(agentOf, pa[0]);
      RestOf(pa, pb, agentOf, dirs);
      ArrivalsRekeyed(a, b, agentOf, dirs, pa[1..], pb[1..]);
      SameEdge(a, b, agentOf, dirs, pa[0]);
      ArrivalsStep(a, pa);
      ArrivalsStep(b, pb);
      RekeyedConcat(ArrivalAt(a, pa[0]), ArrivalAt(b, pb[0]),
        Arrivals(ChangesIn(a, pa[1..])), Arrivals(ChangesIn(b, pb[1..])), agentOf);
    }
  }

  lemma RestOf(pa: seq<Reading<string, Liveness, string>>, pb: seq<LocalRow>, agentOf: string -> Agent,
      dirs: set<string>)
    requires pa != [] && Rekeyed(pa, pb, agentOf) && KeysIn(pa, dirs)
    ensures Rekeyed(pa[1..], pb[1..], agentOf) && KeysIn(pa[1..], dirs)
  {
    assert forall x :: x in pa[1..] ==> x in pa;
  }

  lemma ArrivalsStep<K, V, X>(rows: seq<Reading<K, V, X>>, part: seq<Reading<K, V, X>>)
    requires part != []
    ensures Arrivals(ChangesIn(rows, part)) == ArrivalAt(rows, part[0]) + Arrivals(ChangesIn(rows, part[1..]))
  {
  }

  /** `since_ts` of a dir is the timestamp of its agent's newest liveness edge in the unbounded
      timeline, or of its first sample, whenever dirs and agents correspond one to one. */
  lemma LivenessSinceIsNewestEdge(
    rows: seq<RunnerSample>, m: map<string, State<Liveness>>, agentOf: string -> Agent, dir: string)
    requires StateIsSummary(Map(rows, ByDir), m) && Ascending(Map(rows, ByDir)) && dir in m
    requires DirsAreAgents(rows, agentOf)
    ensures var e := AsOf(Arrivals(Changes(Map(rows, ByAgent))), agentOf(dir), m[dir].lastSeen);
            var h := HistoryOf(Map(rows, ByDir), dir);
            h != [] && m[dir].since == if e.Some? then e.value.ts else h[0].ts
  {
    var a, b := Map(rows, ByDir), Map(rows, ByAgent);
    var dirs := set s | s in rows :: s.dir;
    forall x | x in a ensures x.key in dirs {
      var i :| 0 <= i < |a| && a[i] == x;
      assert rows[i] in rows;
    }
    assert Separates(agentOf, dirs);
    forall i | 0 <= i < |a| ensures b[i] == Rekey(agentOf, a[i]) {
      assert rows[i] in rows;
    }
    ArrivalsRekeyed(a, b, agentOf, dirs, a, b);
    var h := HistoryOf(a, dir);
    assert h[0] in h;
    AsOfRekeyed(Arrivals(Changes(a)), Arrivals(Changes(b)), agentOf, dirs, dir, m[dir].lastSeen);
    SinceIsNewestEdge(a, m, dir);
  }
}
