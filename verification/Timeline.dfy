/** The `timeline` query: edge streams over the sample tables, merged and bounded. */
module Timeline {
  import opened Wrappers
  import opened Seqs
  import opened Readings
  import opened Bounded
  import opened NamedRows
  import opened Rfc3339

  datatype Liveness = Idle | Busy | Offline

  /** GitHub's agent ids are unique only within an org. */
  datatype Agent = Agent(org: string, id: int)

  /** What an audit row records beside success. */
  datatype Audit = Audit(errorKind: Option<string>, httpStatus: Option<int>, runners: nat)

  datatype ApiInfo = ApiInfo(name: string, busy: bool)

  datatype Edge =
    | LivenessEdge(runner: string, from: Liveness, to: Liveness)
    | GithubOnline(runner: string, online: bool)
    | Recovered
    | Failed(errorKind: Option<string>, httpStatus: Option<int>)

  datatype Transition = Transition(org: string, edge: Edge)

  datatype JobEdge = JobStarted | JobCompleted(conclusion: Option<string>)

  datatype JobTransition = JobTransition(org: string, runner: string, repo: string, job: string, edge: JobEdge)

  datatype JobRow = JobRow(org: string, runner: string, repo: string, job: string,
                           startedAt: Option<int>, completedAt: Option<int>, conclusion: Option<string>)

  /** GitHub's view of one runner; `Stale` (aged out) and `Unknown` (never read) differ. */
  datatype GhView = Fresh(online: bool, busy: bool, age: int) | Stale(age: int) | Unknown

  /** The single freshness decision, made in `u64`. */
  function Observed(online: bool, busy: bool, age: int, maxAge: nat): GhView {
    var a := if age < 0 then 0 else age;
    if a <= maxAge then Fresh(online, busy, a) else Stale(a)
  }

  datatype SamplePoint = SamplePoint(org: string, runner: string, liveness: Liveness, github: GhView)

  type LocalRow = Reading<Agent, Liveness, string>
  type ApiRow = Reading<Agent, bool, ApiInfo>
  type ReconcileRow = Reading<string, bool, Audit>

  datatype Store = Store(local: seq<LocalRow>, api: seq<ApiRow>, reconcile: seq<ReconcileRow>, jobs: seq<JobRow>)

  datatype Query = Query(since: int, limit: nat, org: Option<string>, runner: Option<string>, samples: bool)

  datatype Reply = Reply(transitions: Bounded<Transition>, jobs: Bounded<JobTransition>,
                         samples: Option<Bounded<SamplePoint>>, generatedAt: string, since: string, sinceEpoch: int,
                         untilEpoch: int, truncatedAt: Option<int>)

  /** `(?n IS NULL OR col = ?n)`. */
  predicate Passes(filter: Option<string>, col: string) {
    filter.None? || filter.value == col
  }

  function LocalWindow(q: Query): LocalRow -> bool {
    (r: LocalRow) => r.ts >= q.since && Passes(q.org, r.key.org) && Passes(q.runner, r.info)
  }

  function ApiWindow(q: Query): ApiRow -> bool {
    (r: ApiRow) => r.ts >= q.since && Passes(q.org, r.key.org) && Passes(q.runner, r.info.name)
  }

  /** A runner filter narrows reconcile rows to that runner's orgs. */
  function ReconcileWindow(s: Store, q: Query): ReconcileRow -> bool {
    (r: ReconcileRow) =>
      && r.ts >= q.since && Passes(q.org, r.key)
      && (q.runner.None? || exists x :: x in s.local && x.info == q.runner.value && x.key.org == r.key)
  }

  function Map<A, B>(s: seq<A>, f: A -> B): (r: seq<B>)
    ensures |r| == |s| && forall i :: 0 <= i < |s| ==> r[i] == f(s[i])
  {
    seq(|s|, i requires 0 <= i < |s| => f(s[i]))
  }

  function LivenessTransition(e: Change<Agent, Liveness, string>): Stamped<Transition> {
    Stamped(e.cur.ts, Transition(e.cur.key.org, LivenessEdge(e.cur.info, e.prev.value, e.cur.value)))
  }

  function GithubTransition(e: Change<Agent, bool, ApiInfo>): Stamped<Transition> {
    Stamped(e.cur.ts, Transition(e.cur.key.org, GithubOnline(e.cur.info.name, e.cur.value)))
  }

  function ReconcileTransition(e: Change<string, bool, Audit>): Stamped<Transition> {
    Stamped(e.cur.ts, Transition(e.cur.key, if e.cur.value then Recovered
        else Failed(e.cur.info.errorKind, e.cur.info.httpStatus)))
  }

  function LivenessEdges(s: Store, q: Query): seq<Stamped<Transition>> {
    Map(Changes(Where(s.local, LocalWindow(q))), LivenessTransition)
  }

  function GithubEdges(s: Store, q: Query): seq<Stamped<Transition>> {
    Map(Changes(Where(s.api, ApiWindow(q))), GithubTransition)
  }

  function ReconcileEdges(s: Store, q: Query): seq<Stamped<Transition>> {
    Map(Changes(Where(s.reconcile, ReconcileWindow(s, q))), ReconcileTransition)
  }

  /** Every edge the window holds, before any limit. */
  function AllEdges(s: Store, q: Query): seq<Stamped<Transition>> {
    LivenessEdges(s, q) + GithubEdges(s, q) + ReconcileEdges(s, q)
  }

  function JobEnds(jobs: seq<JobRow>, q: Query): seq<Stamped<JobTransition>> {
    if jobs == [] then []
    else
      var j := jobs[0];
      var passes := Passes(q.org, j.org) && Passes(q.runner, j.runner);
      (if passes && j.startedAt.Some? && j.startedAt.value >= q.since
       then [Stamped(j.startedAt.value, JobTransition(j.org, j.runner, j.repo, j.job, JobStarted))] else [])
      + (if passes && j.completedAt.Some? && j.completedAt.value >= q.since
         then [Stamped(j.completedAt.value, JobTransition(j.org, j.runner, j.repo, j.job, JobCompleted(j.conclusion)))]
         else [])
      + JobEnds(jobs[1..], q)
  }

  /** GitHub's view as of a tick: the newest reading at or before it, classified by its age then. */
  function ViewAt(api: seq<ApiRow>, r: LocalRow, maxAge: nat): GhView {
    match AsOf(api, r.key, r.ts)
    case Some(a) => Observed(a.value, a.info.busy, r.ts - a.ts, maxAge)
    case None => Unknown
  }

  function SampleAt(api: seq<ApiRow>, maxAge: nat): LocalRow -> Stamped<SamplePoint> {
    (r: LocalRow) => Stamped(r.ts, SamplePoint(r.key.org, r.info, r.value, ViewAt(api, r, maxAge)))
  }

  function Samples(s: Store, q: Query, maxAge: nat): seq<Stamped<SamplePoint>> {
    Map(Where(s.local, LocalWindow(q)), SampleAt(s.api, maxAge))
  }

  function SampleName(): SamplePoint -> string {
    (p: SamplePoint) => p.runner
  }

  /** The text names the instant. */
  predicate Tells(text: string, epoch: int) {
    |text| >= 16 && Instant(ReadClock(text)) == epoch
  }

  /** The filter asks for this value, or for none. */
  predicate Asks(filter: Option<string>, col: string) {
    filter.Some? ==> filter.value == col
  }

  /** `SELECT min(ts) FROM runner_sample` under the query's filters. */
  function EarliestSample(rows: seq<LocalRow>, q: Query): (r: Option<int>)
    ensures r.Some? ==> exists x :: x in rows && x.ts == r.value && Asks(q.org, x.key.org) && Asks(q.runner, x.info)
    ensures forall x :: x in rows && Asks(q.org, x.key.org) && Asks(q.runner, x.info) ==> r.Some? && r.value <= x.ts
  {
    if rows == [] then None
    else
      assert rows == [rows[0]] + rows[1..];
      var rest := EarliestSample(rows[1..], q);
      var x := rows[0];
      assert x in rows;
      if Passes(q.org, x.key.org) && Passes(q.runner, x.info) && (rest.None? || x.ts < rest.value)
      then Some(x.ts) else rest
  }

  /** The reply holds the newest edges of the whole window: each stream is cut before the merge and
      the merge is cut again, yet no kept edge is older than a dropped one and the flags are exact. */
  method AnswerTimeline(s: Store, q: Query, now: int, maxAge: nat) returns (r: Reply)
    requires q.limit <= U64_MAX
    ensures IsNewest(AllEdges(s, q), q.limit, r.transitions)
    ensures IsNewest(JobEnds(s.jobs, q), q.limit, r.jobs)
    ensures r.samples.Some? <==> q.samples
    ensures q.samples ==> IsNewest(Samples(s, q, maxAge), q.limit, r.samples.value)
    ensures q.samples ==> KeepsFirst(SampleName(), Samples(s, q, maxAge), Reverse(r.samples.value.items))
    ensures r.truncatedAt.Some? <==> EarliestSample(s.local, q).Some? && EarliestSample(s.local, q).value > q.since
    ensures r.truncatedAt.Some? ==> r.truncatedAt == EarliestSample(s.local, q)
    ensures r.sinceEpoch == q.since && r.untilEpoch == now && Tells(r.since, q.since) && Tells(r.generatedAt, now)
  {
    var probe := AsI64(Probe(q.limit));
    var rows := OrderByTsDescLimit(LivenessEdges(s, q), probe);
    ProbeCuts(LivenessEdges(s, q), q.limit, rows);
    ghost var live := rows;
    var gh := OrderByTsDescLimit(GithubEdges(s, q), probe);
    ProbeCuts(GithubEdges(s, q), q.limit, gh);
    rows := rows + gh;
    var rec := OrderByTsDescLimit(ReconcileEdges(s, q), probe);
    ProbeCuts(ReconcileEdges(s, q), q.limit, rec);
    rows := rows + rec;
    SortSorts(rows);
    rows := SortNewestFirst(rows);
    var transitions := Newest(rows, q.limit);
    UnionOfCuts(LivenessEdges(s, q), GithubEdges(s, q), ReconcileEdges(s, q), q.limit, live, gh, rec, rows,
        transitions);

    var samples := None;
    if q.samples {
      var points := OrderByTsDescNameLimit(Samples(s, q, maxAge), SampleName(), probe);
      ProbeCuts(Samples(s, q, maxAge), q.limit, points);
      var kept := Newest(points, q.limit);
      OneCut(Samples(s, q, maxAge), q.limit, points, kept);
      NewestIsFirst(SampleName(), Samples(s, q, maxAge), points, q.limit, kept);
      samples := Some(kept);
    }

    var ends := OrderByTsDescLimit(JobEnds(s.jobs, q), probe);
    ProbeCuts(JobEnds(s.jobs, q), q.limit, ends);
    var jobs := Newest(ends, q.limit);
    OneCut(JobEnds(s.jobs, q), q.limit, ends, jobs);
    var first := EarliestSample(s.local, q);
    TimestampReadsBack(q.since);
    TimestampReadsBack(now);
    r := Reply(transitions, jobs, samples, ToRfc3339Utc(now), ToRfc3339Utc(q.since), q.since, now,
      if first.Some? && first.value > q.since then first else None);
  }

  /** A single stream, cut one over the limit and then to it. */
  lemma OneCut<P(!new)>(all: seq<Stamped<P>>, limit: nat, cut: seq<Stamped<P>>, b: Bounded<P>)
    requires IsProbe(all, limit, cut) && IsNewest(cut, limit, b)
    requires b.items == Reverse(cut[..Min(limit, |cut|)])
    ensures IsNewest(all, limit, b)
  {
    assert all + [] + [] == all && cut + [] + [] == cut;
    UnionOfCuts(all, [], [], limit, cut, [], [], cut, b);
  }

  lemma MapIs<A, B>(s: seq<A>, f: A -> B, y: B)
    ensures y in Map(s, f) <==> exists i :: 0 <= i < |s| && f(s[i]) == y
  {
    if y in Map(s, f) {
      var i :| 0 <= i < |s| && Map(s, f)[i] == y;
    }
    if i :| 0 <= i < |s| && f(s[i]) == y {
      assert Map(s, f)[i] == y;
    }
  }

  /** A stream over a table reports its steps, each as `f` words it. */
  lemma StreamIs<K, V, X>(
    rows: seq<Reading<K, V, X>>, f: Change<K, V, X> -> Stamped<Transition>, t: Stamped<Transition>)
    requires UniqueTs(rows)
    ensures t in Map(Changes(rows), f) <==> exists e: Change<K, V, X> :: IsStep(rows, e.prev, e.cur) && f(e) == t
  {
    var changes := Changes(rows);
    MapIs(changes, f, t);
    if i :| 0 <= i < |changes| && f(changes[i]) == t {
      EdgesAreSteps(rows, changes[i]);
    }
    if e: Change<K, V, X> :| IsStep(rows, e.prev, e.cur) && f(e) == t {
      EdgesAreSteps(rows, e);
      var i :| 0 <= i < |changes| && changes[i] == e;
    }
  }

  /** `t` reports the step from `p` to `r`: at the later reading's time, under its organisation and name,
      from the earlier value to the later. */
  predicate ReportsLiveness(p: LocalRow, r: LocalRow, t: Stamped<Transition>) {
    && t.ts == r.ts && t.what.org == r.key.org && t.what.edge.LivenessEdge?
    && t.what.edge.runner == r.info && t.what.edge.from == p.value && t.what.edge.to == r.value
  }

  predicate ReportsGithub(r: ApiRow, t: Stamped<Transition>) {
    && t.ts == r.ts && t.what.org == r.key.org && t.what.edge.GithubOnline?
    && t.what.edge.runner == r.info.name && t.what.edge.online == r.value
  }

  /** A step to success is a recovery; one to failure carries the later reading's cause. */
  predicate ReportsReconcile(r: ReconcileRow, t: Stamped<Transition>) {
    && t.ts == r.ts && t.what.org == r.key
    && (match t.what.edge
        case Recovered => r.value
        case Failed(kind, status) => !r.value && kind == r.info.errorKind && status == r.info.httpStatus
        case _ => false)
  }

  /** The rows a query asks for: late enough, of its organisation and runner if it names them. */
  function AskedLocal(q: Query): LocalRow -> bool {
    (r: LocalRow) => r.ts >= q.since && Asks(q.org, r.key.org) && Asks(q.runner, r.info)
  }

  function AskedApi(q: Query): ApiRow -> bool {
    (r: ApiRow) => r.ts >= q.since && Asks(q.org, r.key.org) && Asks(q.runner, r.info.name)
  }

  /** Of audit rows, those of an organisation where the runner it names was sampled. */
  ghost function AskedReconcile(s: Store, q: Query): ReconcileRow -> bool {
    (r: ReconcileRow) =>
      && r.ts >= q.since && Asks(q.org, r.key)
      && (q.runner.Some? ==> exists x :: x in s.local && x.info == q.runner.value && x.key.org == r.key)
  }

  lemma LocalIsAsked(s: Store, q: Query)
    ensures Where(s.local, LocalWindow(q)) == Where(s.local, AskedLocal(q))
  {
    WhereAgrees(s.local, LocalWindow(q), AskedLocal(q));
  }

  lemma ApiIsAsked(s: Store, q: Query)
    ensures Where(s.api, ApiWindow(q)) == Where(s.api, AskedApi(q))
  {
    WhereAgrees(s.api, ApiWindow(q), AskedApi(q));
  }

  lemma ReconcileIsAsked(s: Store, q: Query)
    ensures Where(s.reconcile, ReconcileWindow(s, q)) == Where(s.reconcile, AskedReconcile(s, q))
  {
    WhereAgrees(s.reconcile, ReconcileWindow(s, q), AskedReconcile(s, q));
  }

  lemma ReconcileIsReported(e: Change<string, bool, Audit>, t: Stamped<Transition>)
    ensures ReconcileTransition(e) == t <==> ReportsReconcile(e.cur, t)
  {
  }

  /** The liveness stream reports exactly the steps among the rows asked for. */
  lemma LivenessStreamIs(s: Store, q: Query, t: Stamped<Transition>)
    requires UniqueTs(s.local)
    ensures t in LivenessEdges(s, q) <==> exists e: Change<Agent, Liveness, string> ::
      IsStep(Where(s.local, AskedLocal(q)), e.prev, e.cur) && ReportsLiveness(e.prev, e.cur, t)
  {
    LocalIsAsked(s, q);
    WhereUnique(s.local, LocalWindow(q));
    StreamIs(Where(s.local, LocalWindow(q)), LivenessTransition, t);
    forall e ensures LivenessTransition(e) == t <==> ReportsLiveness(e.prev, e.cur, t) {
    }
  }

  lemma GithubStreamIs(s: Store, q: Query, t: Stamped<Transition>)
    requires UniqueTs(s.api)
    ensures t in GithubEdges(s, q) <==> exists e: Change<Agent, bool, ApiInfo> ::
      IsStep(Where(s.api, AskedApi(q)), e.prev, e.cur) && ReportsGithub(e.cur, t)
  {
    ApiIsAsked(s, q);
    WhereUnique(s.api, ApiWindow(q));
    StreamIs(Where(s.api, ApiWindow(q)), GithubTransition, t);
    forall e ensures GithubTransition(e) == t <==> ReportsGithub(e.cur, t) {
    }
  }

  lemma ReconcileStreamIs(s: Store, q: Query, t: Stamped<Transition>)
    requires UniqueTs(s.reconcile)
    ensures t in ReconcileEdges(s, q) <==> exists e: Change<string, bool, Audit> ::
      IsStep(Where(s.reconcile, AskedReconcile(s, q)), e.prev, e.cur) && ReportsReconcile(e.cur, t)
  {
    ReconcileIsAsked(s, q);
    WhereUnique(s.reconcile, ReconcileWindow(s, q));
    StreamIs(Where(s.reconcile, ReconcileWindow(s, q)), ReconcileTransition, t);
    forall e ensures ReconcileTransition(e) == t <==> ReportsReconcile(e.cur, t) {
      ReconcileIsReported(e, t);
    }
  }

  /** A job row contributes its start and its end, each if it has one inside the window. */
  predicate IsEndOf(j: JobRow, q: Query, t: Stamped<JobTransition>) {
    && Asks(q.org, j.org) && Asks(q.runner, j.runner) && t.ts >= q.since
    && t.what.org == j.org && t.what.runner == j.runner && t.what.repo == j.repo && t.what.job == j.job
    && (match t.what.edge
        case JobStarted => j.startedAt == Some(t.ts)
        case JobCompleted(conclusion) => j.completedAt == Some(t.ts) && conclusion == j.conclusion)
  }

  lemma OneJobEnds(j: JobRow, q: Query, t: Stamped<JobTransition>)
    ensures t in JobEnds([j], q) <==> IsEndOf(j, q, t)
  {
    assert [j][1..] == [];
    assert JobEnds([j][1..], q) == [];
  }

  lemma {:induction false} JobStreamIs(jobs: seq<JobRow>, q: Query, t: Stamped<JobTransition>)
    ensures t in JobEnds(jobs, q) <==> exists j :: j in jobs && IsEndOf(j, q, t)
  {
    if jobs != [] {
      var head, rest := [jobs[0]], jobs[1..];
      assert jobs == head + rest;
      JobStreamIs(rest, q, t);
      OneJobEnds(jobs[0], q, t);
      assert head[1..] == [];
      assert JobEnds(head[1..], q) == [];
      assert JobEnds(jobs, q) == JobEnds(head, q) + JobEnds(rest, q);
    }
  }

  /** A sample row asked for, as the reply gives it: with GitHub's newest reading no later than it, fresh if it
      is no older than `maxAge`. */
  ghost predicate IsSampleOf(api: seq<ApiRow>, maxAge: nat, r: LocalRow, x: Stamped<SamplePoint>) {
    && x.ts == r.ts && x.what.org == r.key.org && x.what.runner == r.info && x.what.liveness == r.value
    && (forall a :: IsNewestReading(api, r, a) ==>
          x.what.github == if r.ts - a.ts <= maxAge then Fresh(a.value, a.info.busy, r.ts - a.ts)
                           else Stale(r.ts - a.ts))
    && ((forall a :: a in api && a.key == r.key ==> a.ts > r.ts) ==> x.what.github == Unknown)
  }

  ghost predicate IsNewestReading(api: seq<ApiRow>, r: LocalRow, a: ApiRow) {
    && a in api && a.key == r.key && a.ts <= r.ts
    && forall b :: b in api && b.key == r.key && b.ts <= r.ts ==> b.ts <= a.ts
  }

  /** The samples are the rows asked for, in table order, each as it is. */
  lemma SamplesAre(s: Store, q: Query, maxAge: nat)
    requires UniqueTs(s.api)
    ensures var rows, points := Where(s.local, AskedLocal(q)), Samples(s, q, maxAge);
            |points| == |rows| && forall i :: 0 <= i < |rows| ==> IsSampleOf(s.api, maxAge, rows[i], points[i])
  {
    LocalIsAsked(s, q);
    var rows, points := Where(s.local, AskedLocal(q)), Samples(s, q, maxAge);
    forall i | 0 <= i < |rows| ensures IsSampleOf(s.api, maxAge, rows[i], points[i]) {
      forall a | IsNewestReading(s.api, rows[i], a) ensures AsOf(s.api, rows[i].key, rows[i].ts) == Some(a) {
        AsOfIs(s.api, rows[i].key, rows[i].ts, a);
      }
    }
  }

  ghost predicate AreAskedEdges(q: Query, ts: seq<Stamped<Transition>>) {
    forall t :: t in ts ==>
      && t.ts >= q.since && Asks(q.org, t.what.org)
      && (t.what.edge.LivenessEdge? ==> Asks(q.runner, t.what.edge.runner))
      && (t.what.edge.GithubOnline? ==> Asks(q.runner, t.what.edge.runner))
  }

  ghost predicate AreAskedJobs(q: Query, js: seq<Stamped<JobTransition>>) {
    forall j :: j in js ==> j.ts >= q.since && Asks(q.org, j.what.org) && Asks(q.runner, j.what.runner)
  }

  ghost predicate AreAskedSamples(q: Query, xs: seq<Stamped<SamplePoint>>) {
    forall x :: x in xs ==> x.ts >= q.since && Asks(q.org, x.what.org) && Asks(q.runner, x.what.runner)
  }

  lemma KeptIsOfAll<P(!new)>(all: seq<Stamped<P>>, limit: nat, b: Bounded<P>, x: Stamped<P>)
    requires IsNewest(all, limit, b)
    ensures x in b.items ==> x in all
    ensures !b.limited && x in all ==> x in b.items
  {
    if x in b.items {
      assert x in multiset(b.items);
      assert x in multiset(all);
    }
    if !b.limited && x in all {
      FullCut(all, b.items);
      assert x in multiset(all);
    }
  }

  lemma EdgesAreAsked(s: Store, q: Query)
    requires UniqueTs(s.local) && UniqueTs(s.api) && UniqueTs(s.reconcile)
    ensures AreAskedEdges(q, AllEdges(s, q))
  {
    forall t | t in AllEdges(s, q)
      ensures t.ts >= q.since && Asks(q.org, t.what.org)
      ensures t.what.edge.LivenessEdge? ==> Asks(q.runner, t.what.edge.runner)
      ensures t.what.edge.GithubOnline? ==> Asks(q.runner, t.what.edge.runner)
    {
      LivenessStreamIs(s, q, t);
      GithubStreamIs(s, q, t);
      ReconcileStreamIs(s, q, t);
    }
  }

  lemma JobsAreAsked(s: Store, q: Query)
    ensures AreAskedJobs(q, JobEnds(s.jobs, q))
  {
    forall j | j in JobEnds(s.jobs, q)
      ensures j.ts >= q.since && Asks(q.org, j.what.org) && Asks(q.runner, j.what.runner)
    {
      JobStreamIs(s.jobs, q, j);
    }
  }

  lemma SamplesAreAsked(s: Store, q: Query, maxAge: nat)
    requires UniqueTs(s.api)
    ensures AreAskedSamples(q, Samples(s, q, maxAge))
  {
    var rows, points := Where(s.local, AskedLocal(q)), Samples(s, q, maxAge);
    SamplesAre(s, q, maxAge);
    forall x | x in points ensures x.ts >= q.since && Asks(q.org, x.what.org) && Asks(q.runner, x.what.runner) {
      var i :| 0 <= i < |points| && points[i] == x;
      assert rows[i] in rows;
    }
  }

  /** A reply holds nothing that was not asked for. */
  lemma ReplyIsAsked(s: Store, q: Query, maxAge: nat, r: Reply)
    requires UniqueTs(s.local) && UniqueTs(s.api) && UniqueTs(s.reconcile)
    requires IsNewest(AllEdges(s, q), q.limit, r.transitions) && IsNewest(JobEnds(s.jobs, q), q.limit, r.jobs)
    requires r.samples.Some? ==> IsNewest(Samples(s, q, maxAge), q.limit, r.samples.value)
    ensures AreAskedEdges(q, r.transitions.items) && AreAskedJobs(q, r.jobs.items)
    ensures r.samples.Some? ==> AreAskedSamples(q, r.samples.value.items)
  {
    EdgesAreAsked(s, q);
    JobsAreAsked(s, q);
    SamplesAreAsked(s, q, maxAge);
    KeptIsAllOfAll(AllEdges(s, q), q.limit, r.transitions);
    KeptIsAllOfAll(JobEnds(s.jobs, q), q.limit, r.jobs);
    if r.samples.Some? {
      KeptIsAllOfAll(Samples(s, q, maxAge), q.limit, r.samples.value);
    }
  }

  lemma KeptIsAllOfAll<P(!new)>(all: seq<Stamped<P>>, limit: nat, b: Bounded<P>)
    requires IsNewest(all, limit, b)
    ensures forall x :: x in b.items ==> x in all
  {
    forall x | x in b.items ensures x in all {
      KeptIsOfAll(all, limit, b, x);
    }
  }

  /** An uncut reply has every sample row asked for. */
  lemma UncutSamplesAreWhole(s: Store, q: Query, maxAge: nat, b: Bounded<SamplePoint>)
    requires UniqueTs(s.api) && IsNewest(Samples(s, q, maxAge), q.limit, b) && !b.limited
    ensures forall r :: r in Where(s.local, AskedLocal(q)) ==>
              exists x :: x in b.items && IsSampleOf(s.api, maxAge, r, x)
  {
    var rows, points := Where(s.local, AskedLocal(q)), Samples(s, q, maxAge);
    SamplesAre(s, q, maxAge);
    forall r | r in rows ensures exists x :: x in b.items && IsSampleOf(s.api, maxAge, r, x) {
      var i :| 0 <= i < |rows| && rows[i] == r;
      KeptIsOfAll(points, q.limit, b, points[i]);
    }
  }

  /** And an uncut collection leaves nothing out: every step, job end and sample asked for is in it. */
  lemma UncutReplyIsWhole(s: Store, q: Query, maxAge: nat, r: Reply)
    requires UniqueTs(s.local) && UniqueTs(s.api) && UniqueTs(s.reconcile)
    requires IsNewest(AllEdges(s, q), q.limit, r.transitions) && IsNewest(JobEnds(s.jobs, q), q.limit, r.jobs)
    requires !r.transitions.limited && !r.jobs.limited
    ensures forall p, x, t :: IsStep(Where(s.local, AskedLocal(q)), p, x) && ReportsLiveness(p, x, t)
              ==> t in r.transitions.items
    ensures forall p, x, t :: IsStep(Where(s.api, AskedApi(q)), p, x) && ReportsGithub(x, t)
              ==> t in r.transitions.items
    ensures forall p, x, t :: IsStep(Where(s.reconcile, AskedReconcile(s, q)), p, x) && ReportsReconcile(x, t)
              ==> t in r.transitions.items
    ensures forall j, t :: j in s.jobs && IsEndOf(j, q, t) ==> t in r.jobs.items
  {
    forall p, x, t | IsStep(Where(s.local, AskedLocal(q)), p, x) && ReportsLiveness(p, x, t)
      ensures t in r.transitions.items
    {
      LivenessStreamIs(s, q, t);
      assert IsStep(Where(s.local, AskedLocal(q)), Change(p, x).prev, Change(p, x).cur);
      KeptIsOfAll(AllEdges(s, q), q.limit, r.transitions, t);
    }
    forall p, x, t | IsStep(Where(s.api, AskedApi(q)), p, x) && ReportsGithub(x, t) ensures t in r.transitions.items {
      GithubStreamIs(s, q, t);
      assert IsStep(Where(s.api, AskedApi(q)), Change(p, x).prev, Change(p, x).cur);
      KeptIsOfAll(AllEdges(s, q), q.limit, r.transitions, t);
    }
    forall p, x, t | IsStep(Where(s.reconcile, AskedReconcile(s, q)), p, x) && ReportsReconcile(x, t)
      ensures t in r.transitions.items
    {
      ReconcileStreamIs(s, q, t);
      assert IsStep(Where(s.reconcile, AskedReconcile(s, q)), Change(p, x).prev, Change(p, x).cur);
      KeptIsOfAll(AllEdges(s, q), q.limit, r.transitions, t);
    }
    forall j, t | j in s.jobs && IsEndOf(j, q, t) ensures t in r.jobs.items {
      JobStreamIs(s.jobs, q, t);
      KeptIsOfAll(JobEnds(s.jobs, q), q.limit, r.jobs, t);
    }
  }

  // ------------------------------------------------------------------ history

  /** A runner keeps its name. */
  ghost predicate NamesAreStable(rows: seq<LocalRow>) {
    forall a, b :: a in rows && b in rows && a.key == b.key ==> a.info == b.info
  }

  ghost predicate ApiNamesAreStable(rows: seq<ApiRow>) {
    forall a, b :: a in rows && b in rows && a.key == b.key ==> a.info.name == b.info.name
  }

  /** Where names are stable, each stream is the full history's edges whose predecessor is in the
      window: filtering rows before `LAG` and filtering edges after it agree. */
  lemma StreamsAreWindowedHistory(s: Store, q: Query)
    requires UniqueTs(s.local) && NamesAreStable(s.local)
    requires UniqueTs(s.api) && ApiNamesAreStable(s.api)
    requires UniqueTs(s.reconcile)
    ensures LivenessEdges(s, q) == Map(Where(Changes(s.local), Leaves(LocalWindow(q))), LivenessTransition)
    ensures GithubEdges(s, q) == Map(Where(Changes(s.api), Leaves(ApiWindow(q))), GithubTransition)
    ensures ReconcileEdges(s, q)
         == Map(Where(Changes(s.reconcile), Leaves(ReconcileWindow(s, q))), ReconcileTransition)
  {
    WindowedChanges(s.local, LocalWindow(q));
    WindowedChanges(s.api, ApiWindow(q));
    WindowedChanges(s.reconcile, ReconcileWindow(s, q));
  }

  // ------------------------------------------------- what a name filter invents

  /** The whole history's liveness edges, as the stream words them. */
  function LivenessHistory(s: Store): seq<Stamped<Transition>> {
    Map(Changes(s.local), LivenessTransition)
  }

  function GithubHistory(s: Store): seq<Stamped<Transition>> {
    Map(Changes(s.api), GithubTransition)
  }

  /** A runner's name is its own within an organisation, at any one tick. */
  ghost predicate NamesAreOwn(rows: seq<LocalRow>) {
    forall a, b :: a in rows && b in rows && a.ts == b.ts && a.key.org == b.key.org && a.info == b.info ==> a == b
  }

  ghost predicate ApiNamesAreOwn(rows: seq<ApiRow>) {
    forall a, b :: a in rows && b in rows && a.ts == b.ts && a.key.org == b.key.org && a.info.name == b.info.name ==>
      a == b
  }

  /** A bridge ends in a reading whose own predecessor says what the bridge's start said. */
  ghost predicate TellsTheSame<K(!new), V(!new), X(!new)>(
    rows: seq<Reading<K, V, X>>, p: Reading<K, V, X>, r: Reading<K, V, X>)
  {
    p.value == r.value || exists x :: IsStep(rows, x, r) && x.value == p.value
  }

  /** A bridge between different values is reported, whatever the stream's wording `f`. */
  lemma BridgeIsReported<K, V, X>(
    rows: seq<Reading<K, V, X>>, keep: Reading<K, V, X> -> bool, f: Change<K, V, X> -> Stamped<Transition>,
    p: Reading<K, V, X>, r: Reading<K, V, X>)
    requires UniqueTs(rows) && Bridges(rows, keep, p, r) && p.value != r.value
    ensures f(Change(p, r)) in Map(Changes(Where(rows, keep)), f)
  {
    var e := Change(p, r);
    WhereUnique(rows, keep);
    KeptStep(rows, keep, p, r);
    StreamIs(Where(rows, keep), f, f(e));
    assert IsStep(Where(rows, keep), e.prev, e.cur);
  }

  /** And what is reported is history, or such a bridge. */
  lemma ReportedIsHistoryOrBridge<K, V, X>(
    rows: seq<Reading<K, V, X>>, keep: Reading<K, V, X> -> bool, f: Change<K, V, X> -> Stamped<Transition>,
    t: Stamped<Transition>) returns (e: Change<K, V, X>)
    requires UniqueTs(rows) && t in Map(Changes(Where(rows, keep)), f)
    ensures f(e) == t && e.prev.value != e.cur.value
    ensures t in Map(Changes(rows), f) || Bridges(rows, keep, e.prev, e.cur)
  {
    WhereUnique(rows, keep);
    StreamIs(Where(rows, keep), f, t);
    e :| IsStep(Where(rows, keep), e.prev, e.cur) && f(e) == t;
    KeptStep(rows, keep, e.prev, e.cur);
    if !Bridges(rows, keep, e.prev, e.cur) {
      StreamIs(rows, f, t);
    }
  }

  /** The wording tells apart steps to different readings, or from different values, and nothing else. */
  ghost predicate IsTelling<K(!new), V(!new), X(!new)>(
    rows: seq<Reading<K, V, X>>, f: Change<K, V, X> -> Stamped<Transition>)
  {
    forall d: Change<K, V, X>, e: Change<K, V, X> ::
      d.cur in rows && e.cur in rows && d.prev.value != d.cur.value && e.prev.value != e.cur.value ==>
        (f(d) == f(e) <==> d.cur == e.cur && d.prev.value == e.prev.value)
  }

  /** A reported edge is history's exactly when history says the same of its reading. */
  lemma ReportedInHistory<K(!new), V(!new), X(!new)>(
    rows: seq<Reading<K, V, X>>, f: Change<K, V, X> -> Stamped<Transition>,
    p: Reading<K, V, X>, r: Reading<K, V, X>)
    requires UniqueTs(rows) && IsTelling(rows, f) && r in rows && p.value != r.value
    ensures f(Change(p, r)) in Map(Changes(rows), f) <==> TellsTheSame(rows, p, r)
  {
    var t := f(Change(p, r));
    StreamIs(rows, f, t);
    if e: Change<K, V, X> :| IsStep(rows, e.prev, e.cur) && f(e) == t {
      assert IsStep(rows, e.prev, r);
    }
    if x :| IsStep(rows, x, r) && x.value == p.value {
      var e := Change(x, r);
      assert IsStep(rows, e.prev, e.cur) && f(e) == t;
    }
  }

  lemma ReportsHistory<K(!new), V(!new), X(!new)>(
    rows: seq<Reading<K, V, X>>, keep: Reading<K, V, X> -> bool, f: Change<K, V, X> -> Stamped<Transition>,
    t: Stamped<Transition>)
    requires UniqueTs(rows) && IsTelling(rows, f) && t in Map(Changes(Where(rows, keep)), f)
    requires forall p, r :: Bridges(rows, keep, p, r) ==> TellsTheSame(rows, p, r)
    ensures t in Map(Changes(rows), f)
  {
    var e := ReportedIsHistoryOrBridge(rows, keep, f, t);
    if Bridges(rows, keep, e.prev, e.cur) {
      ReportedInHistory(rows, f, e.prev, e.cur);
      assert Change(e.prev, e.cur) == e;
    }
  }

  /** A stream reports only edges of history exactly when every reading the filter shows after a gap either
      repeats the value shown before it, or follows a hidden reading of that same value. */
  lemma InventsExactly<K(!new), V(!new), X(!new)>(
    rows: seq<Reading<K, V, X>>, keep: Reading<K, V, X> -> bool, f: Change<K, V, X> -> Stamped<Transition>)
    requires UniqueTs(rows) && IsTelling(rows, f)
    ensures (forall t :: t in Map(Changes(Where(rows, keep)), f) ==> t in Map(Changes(rows), f))
            <==> forall p, r :: Bridges(rows, keep, p, r) ==> TellsTheSame(rows, p, r)
  {
    if forall t :: t in Map(Changes(Where(rows, keep)), f) ==> t in Map(Changes(rows), f) {
      forall p, r | Bridges(rows, keep, p, r) && p.value != r.value ensures TellsTheSame(rows, p, r) {
        BridgeIsReported(rows, keep, f, p, r);
        ReportedInHistory(rows, f, p, r);
      }
    }
    if forall p, r :: Bridges(rows, keep, p, r) ==> TellsTheSame(rows, p, r) {
      forall t | t in Map(Changes(Where(rows, keep)), f) ensures t in Map(Changes(rows), f) {
        ReportsHistory(rows, keep, f, t);
      }
    }
  }

  lemma LivenessIsTelling(rows: seq<LocalRow>)
    requires NamesAreOwn(rows)
    ensures IsTelling(rows, LivenessTransition)
  {
    forall d: Change<Agent, Liveness, string>, e: Change<Agent, Liveness, string> | d.cur in rows && e.cur in rows
      ensures LivenessTransition(d) == LivenessTransition(e) <==> d.cur == e.cur && d.prev.value == e.prev.value
    {
      var t, u := LivenessTransition(d), LivenessTransition(e);
      assert t == u ==> d.cur.ts == e.cur.ts && d.cur.key.org == e.cur.key.org && d.cur.info == e.cur.info;
      assert t == u ==> t.what.edge.from == u.what.edge.from;
    }
  }

  lemma GithubIsTelling(rows: seq<ApiRow>)
    requires ApiNamesAreOwn(rows)
    ensures IsTelling(rows, GithubTransition)
  {
    forall d: Change<Agent, bool, ApiInfo>, e: Change<Agent, bool, ApiInfo> | d.cur in rows && e.cur in rows
      ensures GithubTransition(d) == GithubTransition(e) <==> d.cur == e.cur
    {
      var t, u := GithubTransition(d), GithubTransition(e);
      assert t == u ==> d.cur.ts == e.cur.ts && d.cur.key.org == e.cur.key.org && t.what.edge == u.what.edge;
      assert t == u ==> d.cur.info.name == e.cur.info.name;
    }
  }

  lemma LivenessInventsExactly(s: Store, q: Query)
    requires UniqueTs(s.local) && NamesAreOwn(s.local)
    ensures (forall t :: t in LivenessEdges(s, q) ==> t in LivenessHistory(s))
            <==> forall p, r :: Bridges(s.local, LocalWindow(q), p, r) ==> TellsTheSame(s.local, p, r)
  {
    var rows, keep, f := s.local, LocalWindow(q), LivenessTransition;
    LivenessIsTelling(rows);
    var shown, all := LivenessEdges(s, q), LivenessHistory(s);
    assert shown == Map(Changes(Where(rows, keep)), f) && all == Map(Changes(rows), f);
    InventsExactly(rows, keep, f);
  }

  lemma GithubInventsExactly(s: Store, q: Query)
    requires UniqueTs(s.api) && ApiNamesAreOwn(s.api)
    ensures (forall t :: t in GithubEdges(s, q) ==> t in GithubHistory(s))
            <==> forall p, r :: Bridges(s.api, ApiWindow(q), p, r) ==> TellsTheSame(s.api, p, r)
  {
    var rows, keep, f := s.api, ApiWindow(q), GithubTransition;
    GithubIsTelling(rows);
    var shown, all := GithubEdges(s, q), GithubHistory(s);
    assert shown == Map(Changes(Where(rows, keep)), f) && all == Map(Changes(rows), f);
    InventsExactly(rows, keep, f);
  }
}
