/** Filling in job conclusions: grouping pending jobs by run attempt, and matching each to the attempt's
    jobs as GitHub names them. */
module Conclusions {
  import opened Wrappers
  import opened Seqs
  import opened Text
  import opened Scope

  const RUN_LOOKUPS_PER_CYCLE: nat := 30

  datatype Pending = Pending(org: string, repo: string, runId: int, runAttempt: int, job: string, runner: string)

  /** One run attempt of one repository. */
  datatype Attempt = Attempt(org: string, repo: string, runId: int, runAttempt: int)

  datatype RunJob = RunJob(name: string, runner: Option<string>, conclusion: Option<string>)

  datatype JobConclusion = JobConclusion(runId: int, runAttempt: int, job: string, runner: string, conclusion: string)

  function AttemptOf(p: Pending): Attempt {
    Attempt(p.org, p.repo, p.runId, p.runAttempt)
  }

  function InAttempt(k: Attempt): Pending -> bool {
    (p: Pending) => AttemptOf(p) == k
  }

  // ---------------------------------------------------------------- grouping

  /** The attempts of `ps`, each where its first job is. */
  function Attempts(ps: seq<Pending>): seq<Attempt> {
    if ps == [] then []
    else
      var before, k := Attempts(ps[..|ps| - 1]), AttemptOf(ps[|ps| - 1]);
      if k in before then before else before + [k]
  }

  /** What grouping comes to: one group an attempt, its jobs in input order. */
  predicate IsGrouping(ps: seq<Pending>, groups: seq<seq<Pending>>) {
    && |groups| == |Attempts(ps)|
    && forall i :: 0 <= i < |groups| ==> groups[i] == Where(ps, InAttempt(Attempts(ps)[i]))
  }

  method GroupByAttempt(ps: seq<Pending>) returns (attempts: seq<seq<Pending>>)
    ensures IsGrouping(ps, attempts)
  {
    attempts := [];
    var index: map<Attempt, nat> := map[];
    var n := 0;
    while n < |ps|
      invariant n <= |ps| && IsGrouping(ps[..n], attempts) && IsIndex(ps[..n], index)
    {
      var p := ps[n];
      var k := AttemptOf(p);
      Prefixes(ps, n);
      if k !in index {
        NewGroup(ps[..n], p, attempts, index);
        index := index[k := |attempts|];
        attempts := attempts + [[]];
      } else {
        OldGroup(ps[..n], p, attempts, index);
      }
      attempts := attempts[index[k] := attempts[index[k]] + [p]];
      n := n + 1;
    }
    assert ps[..n] == ps;
  }

  lemma Prefixes(ps: seq<Pending>, n: nat)
    requires n < |ps|
    ensures ps[..n + 1] == ps[..n] + [ps[n]]
  {
  }

  /** The index holds each attempt's place. */
  ghost predicate IsIndex(ps: seq<Pending>, index: map<Attempt, nat>) {
    && (forall k :: k in index <==> k in Attempts(ps))
    && forall k :: k in index ==> index[k] < |Attempts(ps)| && Attempts(ps)[index[k]] == k
  }

  lemma AttemptsMore(ps: seq<Pending>, p: Pending)
    ensures Attempts(ps + [p]) == Attempts(ps) + if AttemptOf(p) in Attempts(ps) then [] else [AttemptOf(p)]
  {
    assert (ps + [p])[..|ps|] == ps;
  }

  lemma GroupMore(ps: seq<Pending>, p: Pending, k: Attempt)
    ensures Where(ps + [p], InAttempt(k)) == Where(ps, InAttempt(k)) + if k == AttemptOf(p) then [p] else []
  {
    WhereConcat(ps, [p], InAttempt(k));
    assert [p][1..] == [];
  }

  lemma IndexMore(ps: seq<Pending>, p: Pending, index: map<Attempt, nat>)
    requires IsIndex(ps, index) && AttemptOf(p) !in index
    ensures IsIndex(ps + [p], index[AttemptOf(p) := |Attempts(ps)|])
  {
    AttemptsMore(ps, p);
  }

  /** A job of a new attempt opens a group. */
  lemma NewGroup(ps: seq<Pending>, p: Pending, groups: seq<seq<Pending>>, index: map<Attempt, nat>)
    requires IsGrouping(ps, groups) && IsIndex(ps, index) && AttemptOf(p) !in index
    ensures IsGrouping(ps + [p], (groups + [[]])[|groups| := [] + [p]])
    ensures IsIndex(ps + [p], index[AttemptOf(p) := |groups|])
  {
    var k := AttemptOf(p);
    IndexMore(ps, p, index);
    AttemptsMore(ps, p);
    NoneYet(ps, k);
    GroupMore(ps, p, k);
    assert [] + [p] == [p];
    assert (groups + [[]])[|groups| := [] + [p]] == groups + [[p]];
    forall i | 0 <= i < |groups| ensures Where(ps + [p], InAttempt(Attempts(ps)[i])) == groups[i] {
      GroupMore(ps, p, Attempts(ps)[i]);
      assert Attempts(ps)[i] in Attempts(ps);
    }
  }

  /** Another joins its own group and no other. */
  lemma OldGroup(ps: seq<Pending>, p: Pending, groups: seq<seq<Pending>>, index: map<Attempt, nat>)
    requires IsGrouping(ps, groups) && IsIndex(ps, index) && AttemptOf(p) in index
    ensures index[AttemptOf(p)] < |groups|
    ensures IsGrouping(ps + [p], groups[index[AttemptOf(p)] := groups[index[AttemptOf(p)]] + [p]])
    ensures IsIndex(ps + [p], index)
  {
    AttemptsMore(ps, p);
    AttemptsDiffer(ps);
    forall i | 0 <= i < |groups|
      ensures Where(ps + [p], InAttempt(Attempts(ps)[i])) == groups[i] + if i == index[AttemptOf(p)] then [p] else []
    {
      GroupMore(ps, p, Attempts(ps)[i]);
    }
  }

  lemma {:induction false} AttemptsDiffer(ps: seq<Pending>)
    ensures forall i, j :: 0 <= i < j < |Attempts(ps)| ==> Attempts(ps)[i] != Attempts(ps)[j]
    ensures forall p :: p in ps ==> AttemptOf(p) in Attempts(ps)
  {
    if ps != [] {
      var front, last := ps[..|ps| - 1], ps[|ps| - 1];
      AttemptsDiffer(front);
      assert ps == front + [last];
    }
  }

  lemma NoneYet(ps: seq<Pending>, k: Attempt)
    requires k !in Attempts(ps)
    ensures Where(ps, InAttempt(k)) == []
  {
    AttemptsDiffer(ps);
    WhereNone(ps, InAttempt(k));
  }

  function Flatten<T>(groups: seq<seq<T>>): seq<T> {
    if groups == [] then [] else groups[0] + Flatten(groups[1..])
  }

  lemma {:induction false} FlattenCounts(groups: seq<seq<Pending>>, ps: seq<Pending>, keys: seq<Attempt>, p: Pending)
    requires |groups| == |keys| && forall i :: 0 <= i < |groups| ==> groups[i] == Where(ps, InAttempt(keys[i]))
    requires forall i, j :: 0 <= i < j < |keys| ==> keys[i] != keys[j]
    ensures multiset(Flatten(groups))[p] == if AttemptOf(p) in keys then multiset(ps)[p] else 0
  {
    if groups != [] {
      FlattenCounts(groups[1..], ps, keys[1..], p);
      assert keys == [keys[0]] + keys[1..];
      WhereCounts(ps, InAttempt(keys[0]), p);
      assert multiset(Flatten(groups)) == multiset(groups[0]) + multiset(Flatten(groups[1..]));
    }
  }

  /** Two jobs are in one group exactly when they are of one attempt of one run of one repository. */
  lemma SameGroupExactly(ps: seq<Pending>, groups: seq<seq<Pending>>, i: nat, p: Pending, q: Pending)
    requires IsGrouping(ps, groups) && i < |groups| && p in groups[i] && q in ps
    ensures q in groups[i] <==>
      q.org == p.org && q.repo == p.repo && q.runId == p.runId && q.runAttempt == p.runAttempt
  {
  }

  lemma {:induction false} WhereCounts<T>(s: seq<T>, keep: T -> bool, x: T)
    ensures multiset(Where(s, keep))[x] == if keep(x) then multiset(s)[x] else 0
  {
    if s != [] {
      WhereCounts(s[1..], keep, x);
      assert s == [s[0]] + s[1..];
    }
  }

  /** Grouping loses and duplicates nothing. */
  lemma GroupingPermutes(ps: seq<Pending>, groups: seq<seq<Pending>>)
    requires IsGrouping(ps, groups)
    ensures multiset(Flatten(groups)) == multiset(ps)
  {
    AttemptsDiffer(ps);
    forall p ensures multiset(Flatten(groups))[p] == multiset(ps)[p] {
      FlattenCounts(groups, ps, Attempts(ps), p);
      if AttemptOf(p) !in Attempts(ps) {
        assert p !in ps;
      }
    }
  }

  /** Where an attempt's first job is. */
  function FirstOf(ps: seq<Pending>, k: Attempt): nat {
    if ps == [] || AttemptOf(ps[0]) == k then 0 else 1 + FirstOf(ps[1..], k)
  }

  lemma {:induction false} FirstOfConcat(a: seq<Pending>, b: seq<Pending>, k: Attempt)
    ensures FirstOf(a, k) <= |a|
    ensures FirstOf(a + b, k) == if FirstOf(a, k) < |a| then FirstOf(a, k) else |a| + FirstOf(b, k)
  {
    if a == [] {
      assert a + b == b;
    } else {
      assert (a + b)[1..] == a[1..] + b;
      FirstOfConcat(a[1..], b, k);
    }
  }

  /** Groups stand in the order of their first, and so oldest, jobs; each has one. */
  lemma {:induction false} GroupsInOrderOfFirst(ps: seq<Pending>)
    ensures forall i :: 0 <= i < |Attempts(ps)| ==>
      FirstOf(ps, Attempts(ps)[i]) < |ps| && Where(ps, InAttempt(Attempts(ps)[i])) != []
    ensures forall i, j :: 0 <= i < j < |Attempts(ps)| ==> FirstOf(ps, Attempts(ps)[i]) < FirstOf(ps, Attempts(ps)[j])
  {
    if ps != [] {
      var front, last := ps[..|ps| - 1], ps[|ps| - 1];
      GroupsInOrderOfFirst(front);
      assert ps == front + [last];
      forall k
        ensures FirstOf(ps, k) == (
          if FirstOf(front, k) < |front| then FirstOf(front, k) else |front| + FirstOf([last], k))
        ensures Where(ps, InAttempt(k)) == Where(front, InAttempt(k)) + Where([last], InAttempt(k))
      {
        FirstOfConcat(front, [last], k);
        WhereConcat(front, [last], InAttempt(k));
      }
      NotIn(front, AttemptOf(last));
    }
  }

  lemma {:induction false} NotIn(ps: seq<Pending>, k: Attempt)
    ensures k !in Attempts(ps) ==> FirstOf(ps, k) == |ps|
  {
    AttemptsDiffer(ps);
    if k !in Attempts(ps) {
      Nowhere(ps, k);
    }
  }

  lemma {:induction false} Nowhere(ps: seq<Pending>, k: Attempt)
    requires forall p :: p in ps ==> AttemptOf(p) != k
    ensures FirstOf(ps, k) == |ps|
  {
    if ps != [] {
      assert ps[0] in ps;
      Nowhere(ps[1..], k);
    }
  }

  // ---------------------------------------------------------------- matching

  function RanOn(runner: string): RunJob -> bool {
    (j: RunJob) => j.runner == Some(runner)
  }

  function IsNamed(name: string): RunJob -> bool {
    (j: RunJob) => j.name == name
  }

  /** A matrix leg: `<id> (…)`. */
  function IsLeg(job: string): RunJob -> bool {
    (j: RunJob) => StartsWith(j.name, job + " (")
  }

  function Only(js: seq<RunJob>): Option<RunJob> {
    if |js| == 1 then Some(js[0]) else None
  }

  /** The API job a pending one is: on its runner, named like it, else its one matrix leg, else the
      runner's one job in the attempt. */
  function Matched(p: Pending, api: seq<RunJob>): Option<RunJob> {
    var onRunner := Where(api, RanOn(p.runner));
    var named := Where(onRunner, IsNamed(p.job));
    if named != [] then Some(named[0])
    else if Only(Where(onRunner, IsLeg(p.job))).Some? then Only(Where(onRunner, IsLeg(p.job)))
    else Only(onRunner)
  }

  function ConclusionOf(p: Pending, api: seq<RunJob>): Option<JobConclusion> {
    var job := Matched(p, api);
    if job.None? || job.value.conclusion.None? then None
    else Some(JobConclusion(p.runId, p.runAttempt, p.job, p.runner, job.value.conclusion.value))
  }

  function MatchConclusions(pending: seq<Pending>, api: seq<RunJob>): seq<JobConclusion> {
    if pending == [] then []
    else
      var first := ConclusionOf(pending[0], api);
      (if first.Some? then [first.value] else []) + MatchConclusions(pending[1..], api)
  }

  predicate OnRunner(p: Pending, j: RunJob) {
    j.runner == Some(p.runner)
  }

  predicate SameName(p: Pending, j: RunJob) {
    OnRunner(p, j) && j.name == p.job
  }

  predicate LegOf(p: Pending, j: RunJob) {
    OnRunner(p, j) && p.job + " (" <= j.name
  }

  /** `api[i]` is the only job of those that meet `of`. */
  ghost predicate IsSole(p: Pending, api: seq<RunJob>, of: (Pending, RunJob) -> bool, i: nat) {
    i < |api| && of(p, api[i]) && forall k :: 0 <= k < |api| && k != i ==> !of(p, api[k])
  }

  /** `api[i]` is the first of them. */
  ghost predicate IsFirst(p: Pending, api: seq<RunJob>, of: (Pending, RunJob) -> bool, i: nat) {
    i < |api| && of(p, api[i]) && forall k :: 0 <= k < i ==> !of(p, api[k])
  }

  /** The job that decides: the first of the runner with the pending job's name; if none has it, the runner's
      only matrix leg of that name; if there is not exactly one, the runner's only job. */
  ghost predicate Decides(p: Pending, api: seq<RunJob>, i: nat) {
    if exists k: nat :: IsFirst(p, api, SameName, k) then IsFirst(p, api, SameName, i)
    else if exists k: nat :: IsSole(p, api, LegOf, k) then IsSole(p, api, LegOf, i)
    else IsSole(p, api, OnRunner, i)
  }

  /** The pending job's conclusion is what the deciding one came to, if it has come to anything. */
  ghost predicate Concludes(c: JobConclusion, p: Pending, api: seq<RunJob>) {
    && c.runId == p.runId && c.runAttempt == p.runAttempt && c.job == p.job && c.runner == p.runner
    && exists i: nat :: Decides(p, api, i) && i < |api| && api[i].conclusion == Some(c.conclusion)
  }

  lemma OnlyIs(p: Pending, api: seq<RunJob>, keep: RunJob -> bool, of: (Pending, RunJob) -> bool)
    requires forall j :: keep(j) <==> of(p, j)
    ensures Only(Where(api, keep)).Some? <==> exists i: nat :: IsSole(p, api, of, i)
    ensures forall i: nat :: IsSole(p, api, of, i) ==> Only(Where(api, keep)) == Some(api[i])
  {
    if |Where(api, keep)| == 1 {
      var i := SoleIndex(api, keep);
      assert IsSole(p, api, of, i);
    }
    forall i: nat | IsSole(p, api, of, i) ensures Only(Where(api, keep)) == Some(api[i]) {
      WhereSole(api, keep, i);
    }
  }

  lemma FirstIs(p: Pending, api: seq<RunJob>, keep: RunJob -> bool, of: (Pending, RunJob) -> bool)
    requires forall j :: keep(j) <==> of(p, j)
    ensures Where(api, keep) != [] <==> exists i: nat :: IsFirst(p, api, of, i)
    ensures forall i: nat :: IsFirst(p, api, of, i) ==> Where(api, keep) != [] && Where(api, keep)[0] == api[i]
  {
    if Where(api, keep) != [] {
      var i := SomeIndex(api, keep);
      assert IsFirst(p, api, of, i);
    }
    forall i: nat | IsFirst(p, api, of, i) ensures Where(api, keep) != [] && Where(api, keep)[0] == api[i] {
      WhereFirst(api, keep, i);
    }
  }

  lemma NamedIs(p: Pending, api: seq<RunJob>)
    ensures var named := Where(Where(api, RanOn(p.runner)), IsNamed(p.job));
            && (named != [] <==> exists i: nat :: IsFirst(p, api, SameName, i))
            && forall i: nat :: IsFirst(p, api, SameName, i) ==> named != [] && named[0] == api[i]
  {
    var both := (j: RunJob) => SameName(p, j);
    WhereBoth(api, RanOn(p.runner), IsNamed(p.job), both);
    FirstIs(p, api, both, SameName);
  }

  lemma LegsAre(p: Pending, api: seq<RunJob>)
    ensures var legs := Only(Where(Where(api, RanOn(p.runner)), IsLeg(p.job)));
            && (legs.Some? <==> exists i: nat :: IsSole(p, api, LegOf, i))
            && forall i: nat :: IsSole(p, api, LegOf, i) ==> legs == Some(api[i])
  {
    var both := (j: RunJob) => LegOf(p, j);
    WhereBoth(api, RanOn(p.runner), IsLeg(p.job), both);
    OnlyIs(p, api, both, LegOf);
  }

  lemma DecidingIsMatched(p: Pending, api: seq<RunJob>, i: nat)
    requires Decides(p, api, i)
    ensures i < |api| && Matched(p, api) == Some(api[i])
  {
    NamedIs(p, api);
    LegsAre(p, api);
    OnlyIs(p, api, RanOn(p.runner), OnRunner);
  }

  lemma MatchedIsDeciding(p: Pending, api: seq<RunJob>) returns (i: nat)
    requires Matched(p, api).Some?
    ensures Decides(p, api, i)
  {
    NamedIs(p, api);
    LegsAre(p, api);
    OnlyIs(p, api, RanOn(p.runner), OnRunner);
    if k: nat :| IsFirst(p, api, SameName, k) {
      i := k;
    } else if k: nat :| IsSole(p, api, LegOf, k) {
      i := k;
    } else {
      i :| IsSole(p, api, OnRunner, i);
    }
  }

  /** The match is the job that decides. */
  lemma MatchedDecides(p: Pending, api: seq<RunJob>)
    ensures forall i: nat :: Decides(p, api, i) ==> i < |api| && Matched(p, api) == Some(api[i])
    ensures Matched(p, api).Some? ==> exists i: nat :: Decides(p, api, i)
  {
    forall i: nat | Decides(p, api, i) ensures i < |api| && Matched(p, api) == Some(api[i]) {
      DecidingIsMatched(p, api, i);
    }
    if Matched(p, api).Some? {
      var i := MatchedIsDeciding(p, api);
    }
  }

  lemma ConclusionConcludes(p: Pending, api: seq<RunJob>, c: JobConclusion)
    ensures ConclusionOf(p, api) == Some(c) <==> Concludes(c, p, api)
  {
    MatchedDecides(p, api);
  }

  /** The pending jobs with a conclusion to have. */
  ghost function Resolves(api: seq<RunJob>): Pending -> bool {
    (p: Pending) => exists i: nat :: Decides(p, api, i) && i < |api| && api[i].conclusion.Some?
  }

  lemma ResolvesExactly(p: Pending, api: seq<RunJob>)
    ensures Resolves(api)(p) <==> ConclusionOf(p, api).Some?
  {
    MatchedDecides(p, api);
  }

  ghost predicate AllConclude(out: seq<JobConclusion>, resolved: seq<Pending>, api: seq<RunJob>) {
    |out| == |resolved| && forall i :: 0 <= i < |out| ==> Concludes(out[i], resolved[i], api)
  }

  lemma OneMoreConcludes(c: JobConclusion, out: seq<JobConclusion>, p: Pending, resolved: seq<Pending>,
                         api: seq<RunJob>)
    requires Concludes(c, p, api) && AllConclude(out, resolved, api)
    ensures AllConclude([c] + out, [p] + resolved, api)
  {
  }

  /** The pending jobs whose deciding job has come to something get its conclusion, each one, in order; the
      others none. */
  lemma {:induction false} OneConclusionEach(pending: seq<Pending>, api: seq<RunJob>)
    ensures AllConclude(MatchConclusions(pending, api), Where(pending, Resolves(api)), api)
  {
    if pending != [] {
      OneConclusionEach(pending[1..], api);
      assert pending == [pending[0]] + pending[1..];
      NextConclusion(pending[0], pending[1..], api);
    }
  }

  lemma NextConclusion(p: Pending, rest: seq<Pending>, api: seq<RunJob>)
    requires AllConclude(MatchConclusions(rest, api), Where(rest, Resolves(api)), api)
    ensures AllConclude(MatchConclusions([p] + rest, api), Where([p] + rest, Resolves(api)), api)
  {
    var first, out, others := ConclusionOf(p, api), MatchConclusions(rest, api), Where(rest, Resolves(api));
    assert ([p] + rest)[1..] == rest;
    WhereCons(p, rest, Resolves(api));
    ResolvesExactly(p, api);
    if first.Some? {
      ConclusionConcludes(p, api, first.value);
      OneMoreConcludes(first.value, out, p, others, api);
    } else {
      assert [] + out == out && [] + others == others;
    }
  }

  lemma WherePermutes(s: seq<RunJob>, t: seq<RunJob>, keep: RunJob -> bool)
    requires multiset(s) == multiset(t)
    ensures multiset(Where(s, keep)) == multiset(Where(t, keep))
  {
    forall x ensures multiset(Where(s, keep))[x] == multiset(Where(t, keep))[x] {
      WhereCounts(s, keep, x);
      WhereCounts(t, keep, x);
    }
  }

  lemma OnlyPermutes(s: seq<RunJob>, t: seq<RunJob>)
    requires multiset(s) == multiset(t)
    ensures Only(s) == Only(t)
  {
    assert |s| == |multiset(s)| == |multiset(t)| == |t|;
    if |s| == 1 {
      assert s[0] in multiset(s);
      assert t == [t[0]];
    }
  }

  /** No two jobs of one runner share a name. */
  predicate NamesDiffer(api: seq<RunJob>) {
    forall j, k :: j in api && k in api && j.runner == k.runner && j.name == k.name ==> j == k
  }

  lemma FirstPermutes(s: seq<RunJob>, t: seq<RunJob>, name: string)
    requires multiset(s) == multiset(t) && NamesDiffer(s) && forall j, k :: j in s && k in s ==> j.runner == k.runner
    ensures var m, n := Where(s, IsNamed(name)), Where(t, IsNamed(name));
            (m == [] <==> n == []) && (m != [] ==> m[0] == n[0])
  {
    var m, n := Where(s, IsNamed(name)), Where(t, IsNamed(name));
    WherePermutes(s, t, IsNamed(name));
    assert |multiset(m)| == |m| && |multiset(n)| == |n|;
    if m != [] {
      assert n[0] in multiset(n) && n[0] in multiset(m) && n[0] in m && m[0] in m;
    }
  }

  /** Then the order GitHub lists the jobs in does not matter. */
  lemma ApiOrderIsIrrelevant(p: Pending, api: seq<RunJob>, other: seq<RunJob>)
    requires multiset(api) == multiset(other) && NamesDiffer(api)
    ensures ConclusionOf(p, api) == ConclusionOf(p, other)
  {
    var a, b := Where(api, RanOn(p.runner)), Where(other, RanOn(p.runner));
    WherePermutes(api, other, RanOn(p.runner));
    FirstPermutes(a, b, p.job);
    WherePermutes(a, b, IsLeg(p.job));
    OnlyPermutes(a, b);
    OnlyPermutes(Where(a, IsLeg(p.job)), Where(b, IsLeg(p.job)));
  }

  // ----------------------------------------------------------------- looking up

  datatype Answer = Jobs(jobs: seq<RunJob>) | Forbidden | Failed

  predicate AreGroups(attempts: seq<seq<Pending>>) {
    forall i :: 0 <= i < |attempts| ==> attempts[i] != []
  }

  /** A lookup before `i` was forbidden to `i`'s organisation. */
  predicate DeniedBefore(attempts: seq<seq<Pending>>, answers: seq<Answer>, looked: seq<nat>, i: nat)
    requires AreGroups(attempts) && |answers| == |attempts| && i < |attempts|
  {
    exists k :: k in looked && k < i && answers[k].Forbidden? && attempts[k][0].org == attempts[i][0].org
  }

  predicate CanLookUp(p: Pending, hasToken: Pending -> bool) {
    IsRepoOf(p.repo, p.org) && hasToken(p)
  }

  /** The lookups made among the first `end` attempts: in order, all that have a token and a well-named
      repository, but none for an organisation once GitHub forbade one of its. */
  predicate Orderly(attempts: seq<seq<Pending>>, hasToken: Pending -> bool, answers: seq<Answer>, looked: seq<nat>,
      end: nat)
    requires AreGroups(attempts) && |answers| == |attempts| && end <= |attempts|
  {
    && (forall k, l :: 0 <= k < l < |looked| ==> looked[k] < looked[l])
    && (forall k :: 0 <= k < |looked| ==> looked[k] < end)
    && forall i :: 0 <= i < end ==>
         var p := attempts[i][0];
         i in looked <==> IsRepoOf(p.repo, p.org) && hasToken(p) && !DeniedBefore(attempts, answers, looked, i)
  }

  /** The organisations forbidden so far. */
  ghost predicate Remembers(attempts: seq<seq<Pending>>, answers: seq<Answer>, looked: seq<nat>, denied: set<string>)
    requires AreGroups(attempts) && |answers| == |attempts|
  {
    forall org :: org in denied <==>
      exists k :: k in looked && k < |attempts| && answers[k].Forbidden? && attempts[k][0].org == org
  }

  /** Later lookups do not change whether an earlier attempt was denied. */
  lemma DeniedStays(attempts: seq<seq<Pending>>, answers: seq<Answer>, looked: seq<nat>, i: nat, j: nat)
    requires AreGroups(attempts) && |answers| == |attempts| && i <= j < |attempts|
    ensures DeniedBefore(attempts, answers, looked + [j], i) <==> DeniedBefore(attempts, answers, looked, i)
  {
    if DeniedBefore(attempts, answers, looked, i) {
      var k :| k in looked && k < i && answers[k].Forbidden? && attempts[k][0].org == attempts[i][0].org;
      assert k in looked + [j];
    }
  }

  lemma OneMoreLookup(
    attempts: seq<seq<Pending>>, hasToken: Pending -> bool, answers: seq<Answer>, looked: seq<nat>,
        denied: set<string>, i: nat)
    requires AreGroups(attempts) && |answers| == |attempts| && i < |attempts|
    requires Orderly(attempts, hasToken, answers, looked, i) && Remembers(attempts, answers, looked, denied)
    requires attempts[i][0].org !in denied && CanLookUp(attempts[i][0], hasToken)
    ensures Orderly(attempts, hasToken, answers, looked + [i], i + 1)
  {
    forall n | 0 <= n <= i
      ensures n in looked + [i] <==>
        CanLookUp(attempts[n][0], hasToken) && !DeniedBefore(attempts, answers, looked + [i], n)
    {
      DeniedStays(attempts, answers, looked, n, i);
      assert n in looked + [i] <==> n in looked || n == i;
    }
  }

  lemma OneMoreAnswer(attempts: seq<seq<Pending>>, answers: seq<Answer>, looked: seq<nat>, denied: set<string>, i: nat)
    requires AreGroups(attempts) && |answers| == |attempts| && i < |attempts|
    requires Remembers(attempts, answers, looked, denied)
    ensures Remembers(attempts, answers, looked + [i],
                      if answers[i].Forbidden? then denied + {attempts[i][0].org} else denied)
  {
    var now := if answers[i].Forbidden? then denied + {attempts[i][0].org} else denied;
    forall org
      ensures org in now <==>
        exists k :: k in looked + [i] && k < |attempts| && answers[k].Forbidden? && attempts[k][0].org == org
    {
      if org in denied {
        var k :| k in looked && k < |attempts| && answers[k].Forbidden? && attempts[k][0].org == org;
        assert k in looked + [i];
      } else if org in now {
        assert i in looked + [i];
      }
    }
  }

  lemma SkippedLookup(
    attempts: seq<seq<Pending>>, hasToken: Pending -> bool, answers: seq<Answer>, looked: seq<nat>,
        denied: set<string>, i: nat)
    requires AreGroups(attempts) && |answers| == |attempts| && i < |attempts|
    requires Orderly(attempts, hasToken, answers, looked, i) && Remembers(attempts, answers, looked, denied)
    requires attempts[i][0].org in denied || !CanLookUp(attempts[i][0], hasToken)
    ensures Orderly(attempts, hasToken, answers, looked, i + 1)
  {
    if attempts[i][0].org in denied {
      var k :| k in looked && k < |attempts| && answers[k].Forbidden? && attempts[k][0].org == attempts[i][0].org;
      assert DeniedBefore(attempts, answers, looked, i);
    }
  }

  function AtMost(a: nat, b: nat): (r: nat)
    ensures r <= a && r <= b && (r == a || r == b)
  {
    if a < b then a else b
  }

  /** The lookup loop: `answers[i]` is what GitHub says to attempt `i`, `stop` how many attempts begin before
      termination is asked for. `looked` lists the attempts looked up. */
  method LookUp(attempts: seq<seq<Pending>>, hasToken: Pending -> bool, answers: seq<Answer>, stop: nat)
    returns (updates: seq<JobConclusion>, looked: seq<nat>)
    requires |answers| == |attempts| && AreGroups(attempts)
    ensures Orderly(attempts, hasToken, answers, looked, AtMost(stop, AtMost(|attempts|, RUN_LOOKUPS_PER_CYCLE)))
    ensures updates == Updates(attempts, answers, looked)
  {
    updates, looked := [], [];
    var denied: set<string> := {};
    var i := 0;
    var end := AtMost(|attempts|, RUN_LOOKUPS_PER_CYCLE);
    while i < end && i < stop
      invariant i <= end && i <= stop
      invariant Orderly(attempts, hasToken, answers, looked, i) && Remembers(attempts, answers, looked, denied)
      invariant updates == Updates(attempts, answers, looked)
    {
      var jobs := attempts[i];
      var first := jobs[0];
      if first.org in denied || !CanLookUp(first, hasToken) {
        SkippedLookup(attempts, hasToken, answers, looked, denied, i);
      } else {
        OneMoreLookup(attempts, hasToken, answers, looked, denied, i);
        OneMoreAnswer(attempts, answers, looked, denied, i);
        assert (looked + [i])[..|looked|] == looked;
        match answers[i] {
          case Jobs(api) => updates := updates + MatchConclusions(jobs, api);
          case Forbidden => denied := denied + {first.org};
          case Failed =>
        }
        looked := looked + [i];
        assert updates == Updates(attempts, answers, looked);
      }
      i := i + 1;
    }
  }

  /** The conclusions of the attempts looked up and answered. */
  function Updates(attempts: seq<seq<Pending>>, answers: seq<Answer>, looked: seq<nat>): seq<JobConclusion>
    requires |answers| == |attempts| && forall i :: 0 <= i < |looked| ==> looked[i] < |attempts|
  {
    if looked == [] then []
    else
      var last := looked[|looked| - 1];
      Updates(attempts, answers, looked[..|looked| - 1])
      + if answers[last].Jobs? then MatchConclusions(attempts[last], answers[last].jobs) else []
  }

  /** The updates are the conclusions of the jobs of the attempts that were answered, and nothing else. */
  lemma {:induction false} UpdatesAre(
    attempts: seq<seq<Pending>>, answers: seq<Answer>, looked: seq<nat>, c: JobConclusion)
    requires |answers| == |attempts| && forall i :: 0 <= i < |looked| ==> looked[i] < |attempts|
    ensures c in Updates(attempts, answers, looked) <==>
      exists k, p :: k in looked && answers[k].Jobs? && p in attempts[k] && Concludes(c, p, answers[k].jobs)
  {
    if looked != [] {
      var front, last := looked[..|looked| - 1], looked[|looked| - 1];
      assert looked == front + [last];
      UpdatesAre(attempts, answers, front, c);
      if answers[last].Jobs? {
        MatchesAre(attempts[last], answers[last].jobs, c);
      }
    }
  }

  lemma {:induction false} MatchesAre(pending: seq<Pending>, api: seq<RunJob>, c: JobConclusion)
    ensures c in MatchConclusions(pending, api) <==> exists p :: p in pending && Concludes(c, p, api)
  {
    if pending != [] {
      assert pending == [pending[0]] + pending[1..];
      MatchesAre(pending[1..], api, c);
      ConclusionConcludes(pending[0], api, c);
    }
  }
}
