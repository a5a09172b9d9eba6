/** When `tail` prints every edge: the timing bound its lookback needs, and that the bound is tight. */
module TailCompleteness {
  import opened Wrappers
  import opened Seqs
  import opened Readings
  import opened Bounded
  import opened Timeline
  import opened Tail
  import opened TailRuns

  /** `gap`: most seconds between an edge's two samples. `delay`: most seconds from a sample's
      timestamp to its commit. `latency`: most seconds from the collector's read to the client's next
      look at its own clock, printing included. */
  datatype Bounds = Bounds(gap: int, delay: int, latency: int)

  /** The client exits on the spot unless its first poll is answered. */
  predicate Followed(polls: seq<Poll>) {
    polls != [] ==> polls[0].answer.Some?
  }

  /** `rows` is what is committed of `history` so far; each key's samples commit in order. */
  ghost predicate Sees<K, V, X>(history: seq<Reading<K, V, X>>, rows: seq<Reading<K, V, X>>) {
    && UniqueTs(rows)
    && (forall r :: r in rows ==> r in history)
    && (forall r, x :: r in rows && x in history && x.key == r.key && x.ts <= r.ts ==> x in rows)
  }

  /** One sample table over a run. Every answer is made when `committed[k]` of the history had been written,
      late by at most the bounds, from what retention has left of it; what retention deleted stays deleted. */
  ghost predicate StreamInTime<K, V, X>(
    polls: seq<Poll>, rowsOf: Store -> seq<Reading<K, V, X>>, history: seq<Reading<K, V, X>>,
    committed: seq<seq<Reading<K, V, X>>>, b: Bounds)
  {
    && UniqueTs(history) && |committed| == |polls|
    && (forall k :: 0 <= k < |polls| && polls[k].answer.Some? ==>
          var a := polls[k].answer.value;
          && Sees(history, committed[k]) && IsLeft(committed[k], rowsOf(a.store))
          && polls[k].now <= a.at + b.latency
          && forall r :: r in history && r.ts + b.delay <= a.at ==> r in committed[k])
    && (forall j, k :: 0 <= j < k < |polls| && polls[j].answer.Some? && polls[k].answer.Some? ==>
          StayDeleted(committed[j], rowsOf(polls[j].answer.value.store), rowsOf(polls[k].answer.value.store)))
  }

  /** `rows` is some of what was committed: retention may have deleted any of it. */
  ghost predicate IsLeft<K, V, X>(committed: seq<Reading<K, V, X>>, rows: seq<Reading<K, V, X>>) {
    UniqueTs(rows) && forall r :: r in rows ==> r in committed
  }

  ghost predicate StayDeleted<K, V, X>(
    committed: seq<Reading<K, V, X>>, rows: seq<Reading<K, V, X>>, later: seq<Reading<K, V, X>>)
  {
    forall r :: r in later && r in committed ==> r in rows
  }

  /** Retention has not deleted either of the edge's two readings. */
  predicate Holds<K(==), V(==), X(==)>(rows: seq<Reading<K, V, X>>, e: Change<K, V, X>) {
    e.prev in rows && e.cur in rows
  }

  /** Poll `k` is the first answer made when `r` had been committed. */
  ghost predicate FirstSight<K, V, X>(
    polls: seq<Poll>, committed: seq<seq<Reading<K, V, X>>>, r: Reading<K, V, X>, k: int)
  {
    && |committed| == |polls| && 0 <= k < |polls| && polls[k].answer.Some? && r in committed[k]
    && forall j :: 0 <= j < k && polls[j].answer.Some? ==> r !in committed[j]
  }

  function LastAnswered(polls: seq<Poll>): (k: int)
    ensures -1 <= k < |polls|
    ensures k >= 0 ==> polls[k].answer.Some?
  {
    if polls == [] then -1
    else if polls[|polls| - 1].answer.Some? then |polls| - 1
    else LastAnswered(polls[..|polls| - 1])
  }

  /** `since` is set by the last answered poll and survives an outage unchanged. */
  lemma {:induction false} SinceIs(args: Args, now: int, polls: seq<Poll>)
    requires Followed(polls)
    ensures var c, k := RunOf(args, now, polls), LastAnswered(polls);
            && !c.stopped && (polls != [] ==> !c.first)
            && c.since == if k >= 0 then polls[k].now - Lookback(args.localSecs) else Start(args, now).since
  {
    if polls != [] {
      SinceIs(args, now, polls[..|polls| - 1]);
    }
  }

  /** An edge whose two readings are held is an edge of what is held. */
  lemma HeldEdge<K, V, X>(history: seq<Reading<K, V, X>>, rows: seq<Reading<K, V, X>>, e: Change<K, V, X>)
    requires UniqueTs(history) && UniqueTs(rows) && (forall r :: r in rows ==> r in history)
    requires e in Changes(history) && Holds(rows, e)
    ensures e in Changes(rows)
  {
    EdgesAreSteps(history, e);
    EdgesAreSteps(rows, e);
  }

  /** Within the bounds, the window of the first poll made after an edge was committed still reaches back to
      the edge's predecessor. */
  lemma PredecessorInWindow<K, V, X>(
    args: Args, now: int, polls: seq<Poll>, rowsOf: Store -> seq<Reading<K, V, X>>,
    history: seq<Reading<K, V, X>>, committed: seq<seq<Reading<K, V, X>>>, b: Bounds, e: Change<K, V, X>, k: int)
    requires Followed(polls) && StreamInTime(polls, rowsOf, history, committed, b)
    requires b.gap + b.delay + b.latency <= Lookback(args.localSecs) + 1
    requires e in Changes(history) && e.cur.ts - e.prev.ts <= b.gap
    requires FirstSight(polls, committed, e.cur, k) && Start(args, now).since <= e.prev.ts
    ensures e.prev.ts >= RunOf(args, now, polls[..k]).since
  {
    ChangesInIs(history, history, e);
    SinceIs(args, now, polls[..k]);
    var j := LastAnswered(polls[..k]);
    if j >= 0 {
      assert polls[..k][j] == polls[j];
      assert e.cur !in committed[j];
    }
  }

  /** So retention that keeps at least the window keeps the edge's readings. */
  lemma WindowIsHeld<K, V, X>(
    history: seq<Reading<K, V, X>>, committed: seq<Reading<K, V, X>>, rows: seq<Reading<K, V, X>>,
    e: Change<K, V, X>, since: int)
    requires Sees(history, committed) && e in Changes(history) && e.cur in committed && since <= e.prev.ts
    requires forall r :: r in committed && r.ts >= since ==> r in rows
    ensures Holds(rows, e)
  {
    ChangesInIs(history, history, e);
  }

  lemma {:induction false} SinceMonotone(args: Args, now: int, polls: seq<Poll>, k: nat, m: nat)
    requires ValidRun(args, now, polls) && k <= m <= |polls|
    ensures RunOf(args, now, polls[..k]).since <= RunOf(args, now, polls[..m]).since
  {
    if k < m {
      SinceMonotone(args, now, polls, k, m - 1);
      assert polls[..m][..m - 1] == polls[..m - 1];
      ValidPrefix(args, now, polls, m - 1);
      RunInv(args, now, polls[..m - 1]);
      ClientStep(args, RunOf(args, now, polls[..m - 1]), polls[m - 1], ClockBefore(now, polls, m - 1));
    }
  }

  /** The window of answer `m` holds edge `e`. */
  ghost predicate OffersEdge<K, V, X>(
    args: Args, now: int, polls: seq<Poll>, rowsOf: Store -> seq<Reading<K, V, X>>, e: Change<K, V, X>, m: int)
  {
    && 0 <= m < |polls| && polls[m].answer.Some?
    && e in Changes(Where(rowsOf(polls[m].answer.value.store), Since(RunOf(args, now, polls[..m]).since)))
  }

  lemma OfferedIs<K, V, X>(rows: seq<Reading<K, V, X>>, history: seq<Reading<K, V, X>>, e: Change<K, V, X>, since: int)
    requires UniqueTs(history) && UniqueTs(rows) && (forall r :: r in rows ==> r in history) && e in Changes(history)
    ensures e in Changes(Where(rows, Since(since))) <==> Holds(rows, e) && since <= e.prev.ts
  {
    WindowedChanges(rows, Since(since));
    if e in Changes(rows) {
      ChangesInIs(rows, rows, e);
    }
    if Holds(rows, e) {
      HeldEdge(history, rows, e);
    }
  }

  /** Whatever poll offers an edge, the first one after its commit already held its readings. */
  lemma HeldAtFirstSight<K, V, X>(
    polls: seq<Poll>, rowsOf: Store -> seq<Reading<K, V, X>>,
    history: seq<Reading<K, V, X>>, committed: seq<seq<Reading<K, V, X>>>, b: Bounds, e: Change<K, V, X>,
    k: int, m: int)
    requires StreamInTime(polls, rowsOf, history, committed, b) && FirstSight(polls, committed, e.cur, k)
    requires e in Changes(history) && 0 <= m < |polls| && polls[m].answer.Some?
    requires Holds(rowsOf(polls[m].answer.value.store), e)
    ensures k <= m && Holds(rowsOf(polls[k].answer.value.store), e)
  {
    var rows, here := rowsOf(polls[m].answer.value.store), rowsOf(polls[k].answer.value.store);
    assert IsLeft(committed[m], rows) && Sees(history, committed[k]);
    assert e.cur in committed[m];
    ChangesInIs(history, history, e);
    assert e.prev in committed[k] && e.cur in committed[k];
    if k < m {
      assert StayDeleted(committed[k], here, rows);
    }
  }

  /** An edge the first poll after its commit does not offer is never offered: whether a run can print an
      edge is decided by where that one window starts, and by what retention has left by then. */
  lemma FirstSightDecides<K, V, X>(
    args: Args, now: int, polls: seq<Poll>, rowsOf: Store -> seq<Reading<K, V, X>>,
    history: seq<Reading<K, V, X>>, committed: seq<seq<Reading<K, V, X>>>, b: Bounds, e: Change<K, V, X>, k: int)
    requires ValidRun(args, now, polls) && StreamInTime(polls, rowsOf, history, committed, b)
    requires e in Changes(history) && FirstSight(polls, committed, e.cur, k)
    ensures (exists m :: OffersEdge(args, now, polls, rowsOf, e, m))
            <==> e.prev.ts >= RunOf(args, now, polls[..k]).since && Holds(rowsOf(polls[k].answer.value.store), e)
  {
    OffersIs(args, now, polls, rowsOf, history, committed, b, e, k);
    forall m | OffersEdge(args, now, polls, rowsOf, e, m)
      ensures e.prev.ts >= RunOf(args, now, polls[..k]).since && Holds(rowsOf(polls[k].answer.value.store), e)
    {
      OffersIs(args, now, polls, rowsOf, history, committed, b, e, m);
      HeldAtFirstSight(polls, rowsOf, history, committed, b, e, k, m);
      SinceMonotone(args, now, polls, k, m);
    }
  }

  lemma OffersIs<K, V, X>(
    args: Args, now: int, polls: seq<Poll>, rowsOf: Store -> seq<Reading<K, V, X>>,
    history: seq<Reading<K, V, X>>, committed: seq<seq<Reading<K, V, X>>>, b: Bounds, e: Change<K, V, X>, m: int)
    requires StreamInTime(polls, rowsOf, history, committed, b) && e in Changes(history)
    requires 0 <= m < |polls| && polls[m].answer.Some?
    ensures OffersEdge(args, now, polls, rowsOf, e, m)
            <==> Holds(rowsOf(polls[m].answer.value.store), e) && RunOf(args, now, polls[..m]).since <= e.prev.ts
  {
    assert IsLeft(committed[m], rowsOf(polls[m].answer.value.store)) && Sees(history, committed[m]);
    OfferedIs(rowsOf(polls[m].answer.value.store), history, e, RunOf(args, now, polls[..m]).since);
  }

  /** A gap line for transitions opens the output of poll `k`. */
  ghost predicate GapFirst(args: Args, now: int, polls: seq<Poll>, k: nat)
    requires k < |polls|
  {
    var c, d := RunOf(args, now, polls[..k]), RunOf(args, now, polls[..k + 1]);
    OpensWithGap(c.out, d.out, c.since)
  }

  ghost predicate PrintedOrGap(args: Args, now: int, polls: seq<Poll>, k: nat, t: Stamped<Transition>)
    requires k < |polls|
  {
    PairOf(t, TransitionKey) in Printed(RunOf(args, now, polls[..k + 1]).out) || GapFirst(args, now, polls, k)
  }

  /** An edge in a poll's window is printed by the end of that poll, or a gap line precedes the batch. */
  lemma OfferedIsPrinted(args: Args, now: int, polls: seq<Poll>, k: nat, t: Stamped<Transition>)
    requires ValidRun(args, now, polls) && Followed(polls) && k < |polls| && polls[k].answer.Some?
    requires t in AllEdges(polls[k].answer.value.store, QueryFor(args, RunOf(args, now, polls[..k]).since))
    ensures PrintedOrGap(args, now, polls, k, t)
  {
    var c, d := RunOf(args, now, polls[..k]), RunOf(args, now, polls[..k + 1]);
    PollFacts(args, now, polls, k);
    OfferedInStep(args, c, polls[k], t);
  }

  /** What each cursor holds was printed. */
  ghost predicate HoldsPrinted(c: Client) {
    (forall x :: x in c.seen ==> x in Printed(c.out)) && forall x :: x in c.seenJobs ==> x in PrintedJobs(c.out)
  }

  lemma InvHoldsPrinted(args: Args, c: Client, clock: int)
    requires ClientInv(args, c, clock)
    ensures HoldsPrinted(c)
  {
  }

  lemma NextPoll(args: Args, now: int, polls: seq<Poll>, k: nat)
    requires k < |polls|
    ensures RunOf(args, now, polls[..k + 1]) == Step(args, RunOf(args, now, polls[..k]), polls[k])
  {
    assert polls[..k + 1][..k] == polls[..k];
  }

  lemma PollFacts(args: Args, now: int, polls: seq<Poll>, k: nat)
    requires ValidRun(args, now, polls) && Followed(polls) && k < |polls|
    ensures var c := RunOf(args, now, polls[..k]);
            RunOf(args, now, polls[..k + 1]) == Step(args, c, polls[k]) && !c.stopped && HoldsPrinted(c)
  {
    var front := polls[..k];
    SinceIs(args, now, front);
    NextPoll(args, now, polls, k);
    ValidPrefix(args, now, polls, k);
    RunInv(args, now, front);
    InvHoldsPrinted(args, RunOf(args, now, front), ClockBefore(now, front, k));
  }

  /** What `after` adds to `before` opens with a gap line for transitions. */
  ghost predicate OpensWithGap(before: seq<Line>, after: seq<Line>, since: int) {
    && |before| < |after| && after[..|before|] == before
    && after[|before|].Gap? && after[|before|].section == "transitions" && after[|before|].since == since
  }

  lemma OfferedInStep(args: Args, c: Client, p: Poll, t: Stamped<Transition>)
    requires !c.stopped && p.answer.Some? && forall x :: x in c.seen ==> x in Printed(c.out)
    requires IsReply(p.answer.value.store, QueryFor(args, c.since), p.answer.value.reply)
    requires t in AllEdges(p.answer.value.store, QueryFor(args, c.since))
    ensures PairOf(t, TransitionKey) in Printed(Step(args, c, p).out)
            || OpensWithGap(c.out, Step(args, c, p).out, c.since)
  {
    var r, q := p.answer.value.reply, QueryFor(args, c.since);
    assert Step(args, c, p).out == c.out + Output(c, r);
    if r.transitions.limited {
      OutputOpensWithGap(c, r);
    } else {
      UncutHolds(AllEdges(p.answer.value.store, q), q.limit, r.transitions, t);
      BatchIsPrinted(c, r, t);
    }
  }

  lemma OutputOpensWithGap(c: Client, r: Reply)
    requires r.transitions.limited
    ensures var out := c.out + Output(c, r);
            |c.out| < |out| && out[..|c.out|] == c.out
            && out[|c.out|] == Gap("transitions", r.sinceEpoch, r.untilEpoch, POLL_LIMIT)
  {
    assert Output(c, r)[0] == Gap("transitions", r.sinceEpoch, r.untilEpoch, POLL_LIMIT);
  }

  lemma ValidPrefix(args: Args, now: int, polls: seq<Poll>, n: nat)
    requires ValidRun(args, now, polls) && n <= |polls|
    ensures ValidRun(args, now, polls[..n])
  {
    forall k | 0 <= k < n ensures polls[..n][..k] == polls[..k] && polls[..n][k] == polls[k] {
    }
  }

  lemma UncutHolds<P(!new)>(all: seq<Stamped<P>>, limit: nat, b: Bounded<P>, x: Stamped<P>)
    requires IsNewest(all, limit, b) && !b.limited && x in all
    ensures x in b.items
  {
    FullCut(all, b.items);
    assert x in multiset(all);
  }

  lemma BatchIsPrinted(c: Client, r: Reply, t: Stamped<Transition>)
    requires forall p :: p in c.seen ==> p in Printed(c.out)
    requires t in r.transitions.items
    ensures PairOf(t, TransitionKey) in Printed(c.out + Output(c, r))
  {
    var p := PairOf(t, TransitionKey);
    PrintedOutput(c, r);
    AcceptedPairs(c.seen, r.transitions.items, TransitionKey);
    PairsAre(r.transitions.items, TransitionKey, p);
  }

  /** The query asks for this edge's runner. */
  predicate Wanted(args: Args, org: string, runner: string) {
    Asks(args.org, org) && Asks(args.runner, runner)
  }

  function LocalOf(s: Store): seq<LocalRow> { s.local }
  function ApiOf(s: Store): seq<ApiRow> { s.api }
  function ReconcileOf(s: Store): seq<ReconcileRow> { s.reconcile }

  lemma WindowHasEdge<K, V, X>(rows: seq<Reading<K, V, X>>, keep: Reading<K, V, X> -> bool, e: Change<K, V, X>)
    requires UniqueTs(rows) && KeepsLater(rows, keep) && e in Changes(rows) && keep(e.prev)
    ensures e in Changes(Where(rows, keep))
  {
    WindowedChanges(rows, keep);
  }

  lemma MapHolds<A, B>(s: seq<A>, f: A -> B, x: A)
    requires x in s
    ensures f(x) in Map(s, f)
  {
    var i :| 0 <= i < |s| && s[i] == x;
    assert Map(s, f)[i] == f(x);
  }

  /** A run that keeps to the bounds, and an edge after its start window whose readings retention has left by
      the first poll that can see it. */
  ghost predicate InReach<K, V, X>(
    args: Args, now: int, polls: seq<Poll>, rowsOf: Store -> seq<Reading<K, V, X>>,
    history: seq<Reading<K, V, X>>, committed: seq<seq<Reading<K, V, X>>>, b: Bounds, e: Change<K, V, X>, k: int)
  {
    && ValidRun(args, now, polls) && Followed(polls) && StreamInTime(polls, rowsOf, history, committed, b)
    && b.gap + b.delay + b.latency <= Lookback(args.localSecs) + 1
    && e in Changes(history) && e.cur.ts - e.prev.ts <= b.gap
    && FirstSight(polls, committed, e.cur, k) && Start(args, now).since <= e.prev.ts
    && Holds(rowsOf(polls[k].answer.value.store), e)
  }

  /** The query poll `k` sends. */
  function QueryAt(args: Args, now: int, polls: seq<Poll>, k: nat): Query
    requires k <= |polls|
  {
    QueryFor(args, RunOf(args, now, polls[..k]).since)
  }

  /** Then the poll's store has the edge, and its window the predecessor. */
  lemma InReachIsHeld<K, V, X>(
    args: Args, now: int, polls: seq<Poll>, rowsOf: Store -> seq<Reading<K, V, X>>,
    history: seq<Reading<K, V, X>>, committed: seq<seq<Reading<K, V, X>>>, b: Bounds, e: Change<K, V, X>, k: int)
    requires InReach(args, now, polls, rowsOf, history, committed, b, e, k)
    ensures var rows := rowsOf(polls[k].answer.value.store);
            && UniqueTs(rows) && (forall r :: r in rows ==> r in history)
            && e in Changes(rows) && e.prev in rows && e.prev.key == e.cur.key
            && e.prev.ts >= QueryAt(args, now, polls, k).since
  {
    var rows := rowsOf(polls[k].answer.value.store);
    assert IsLeft(committed[k], rows) && Sees(history, committed[k]);
    PredecessorInWindow(args, now, polls, rowsOf, history, committed, b, e, k);
    HeldEdge(history, rows, e);
    ChangesInIs(history, history, e);
  }

  lemma LivenessInWindow(s: Store, q: Query, e: Change<Agent, Liveness, string>)
    requires UniqueTs(s.local) && KeepsLater(s.local, LocalWindow(q))
    requires e in Changes(s.local) && LocalWindow(q)(e.prev)
    ensures e in Changes(Where(s.local, LocalWindow(q))) && LivenessTransition(e) in AllEdges(s, q)
  {
    WindowHasEdge(s.local, LocalWindow(q), e);
    MapHolds(Changes(Where(s.local, LocalWindow(q))), LivenessTransition, e);
  }

  lemma LivenessOffered(
    args: Args, now: int, polls: seq<Poll>, history: seq<LocalRow>,
    committed: seq<seq<LocalRow>>, b: Bounds, e: Change<Agent, Liveness, string>, k: int)
    requires InReach(args, now, polls, LocalOf, history, committed, b, e, k)
    requires NamesAreStable(history) && Wanted(args, e.cur.key.org, e.prev.info)
    ensures var s, q := polls[k].answer.value.store, QueryAt(args, now, polls, k);
            e in Changes(Where(s.local, LocalWindow(q))) && LivenessTransition(e) in AllEdges(s, q)
  {
    var s, q := polls[k].answer.value.store, QueryAt(args, now, polls, k);
    InReachIsHeld(args, now, polls, LocalOf, history, committed, b, e, k);
    LivenessInWindow(s, q, e);
  }

  lemma GithubInWindow(s: Store, q: Query, e: Change<Agent, bool, ApiInfo>)
    requires UniqueTs(s.api) && KeepsLater(s.api, ApiWindow(q))
    requires e in Changes(s.api) && ApiWindow(q)(e.prev)
    ensures e in Changes(Where(s.api, ApiWindow(q))) && GithubTransition(e) in AllEdges(s, q)
  {
    WindowHasEdge(s.api, ApiWindow(q), e);
    MapHolds(Changes(Where(s.api, ApiWindow(q))), GithubTransition, e);
  }

  lemma GithubOffered(
    args: Args, now: int, polls: seq<Poll>, history: seq<ApiRow>,
    committed: seq<seq<ApiRow>>, b: Bounds, e: Change<Agent, bool, ApiInfo>, k: int)
    requires InReach(args, now, polls, ApiOf, history, committed, b, e, k)
    requires ApiNamesAreStable(history) && Wanted(args, e.cur.key.org, e.prev.info.name)
    ensures var s, q := polls[k].answer.value.store, QueryAt(args, now, polls, k);
            e in Changes(Where(s.api, ApiWindow(q))) && GithubTransition(e) in AllEdges(s, q)
  {
    var s, q := polls[k].answer.value.store, QueryAt(args, now, polls, k);
    InReachIsHeld(args, now, polls, ApiOf, history, committed, b, e, k);
    GithubInWindow(s, q, e);
  }

  /** A runner filter must have sampled the edge's organisation by poll `k`. */
  ghost predicate WantedOrg(args: Args, polls: seq<Poll>, org: string, k: nat)
    requires k < |polls| && polls[k].answer.Some?
  {
    && Asks(args.org, org)
    && (args.runner.None? || exists x :: x in polls[k].answer.value.store.local
                                         && x.info == args.runner.value && x.key.org == org)
  }

  lemma ReconcileInWindow(s: Store, q: Query, e: Change<string, bool, Audit>)
    requires UniqueTs(s.reconcile) && KeepsLater(s.reconcile, ReconcileWindow(s, q))
    requires e in Changes(s.reconcile) && ReconcileWindow(s, q)(e.prev)
    ensures e in Changes(Where(s.reconcile, ReconcileWindow(s, q))) && ReconcileTransition(e) in AllEdges(s, q)
  {
    WindowHasEdge(s.reconcile, ReconcileWindow(s, q), e);
    MapHolds(Changes(Where(s.reconcile, ReconcileWindow(s, q))), ReconcileTransition, e);
  }

  /** A reading of a wanted organisation, late enough, is in the window, and so are its later ones. */
  lemma OrgIsInWindow(args: Args, s: Store, q: Query, r: ReconcileRow)
    requires q == QueryFor(args, q.since) && q.since <= r.ts && Asks(args.org, r.key)
    requires args.runner.None? || exists x :: x in s.local && x.info == args.runner.value && x.key.org == r.key
    ensures ReconcileWindow(s, q)(r) && KeepsLater(s.reconcile, ReconcileWindow(s, q))
  {
  }

  lemma ReconcileOffered(
    args: Args, now: int, polls: seq<Poll>, history: seq<ReconcileRow>,
    committed: seq<seq<ReconcileRow>>, b: Bounds, e: Change<string, bool, Audit>, k: int)
    requires InReach(args, now, polls, ReconcileOf, history, committed, b, e, k)
    requires WantedOrg(args, polls, e.cur.key, k)
    ensures var s, q := polls[k].answer.value.store, QueryAt(args, now, polls, k);
            e in Changes(Where(s.reconcile, ReconcileWindow(s, q))) && ReconcileTransition(e) in AllEdges(s, q)
  {
    var s, q := polls[k].answer.value.store, QueryAt(args, now, polls, k);
    InReachIsHeld(args, now, polls, ReconcileOf, history, committed, b, e, k);
    OrgIsInWindow(args, s, q, e.prev);
    ReconcileInWindow(s, q, e);
  }

  /** For every liveness edge in reach a line of its identity is printed by the first poll after its commit, or
      that poll says so first, outages and retention or not. `OwnLines` says when the line is the edge's own. */
  lemma TailPrintsLivenessEdges(
    args: Args, now: int, polls: seq<Poll>, history: seq<LocalRow>,
    committed: seq<seq<LocalRow>>, b: Bounds, e: Change<Agent, Liveness, string>, k: int)
    requires InReach(args, now, polls, LocalOf, history, committed, b, e, k)
    requires NamesAreStable(history) && Wanted(args, e.cur.key.org, e.prev.info)
    ensures PrintedOrGap(args, now, polls, k, LivenessTransition(e))
  {
    LivenessOffered(args, now, polls, history, committed, b, e, k);
    OfferedIsPrinted(args, now, polls, k, LivenessTransition(e));
  }

  /** The same for GitHub edges, whose samples come at the reconcile cadence instead. */
  lemma TailPrintsGithubEdges(
    args: Args, now: int, polls: seq<Poll>, history: seq<ApiRow>,
    committed: seq<seq<ApiRow>>, b: Bounds, e: Change<Agent, bool, ApiInfo>, k: int)
    requires InReach(args, now, polls, ApiOf, history, committed, b, e, k)
    requires ApiNamesAreStable(history) && Wanted(args, e.cur.key.org, e.prev.info.name)
    ensures PrintedOrGap(args, now, polls, k, GithubTransition(e))
  {
    GithubOffered(args, now, polls, history, committed, b, e, k);
    OfferedIsPrinted(args, now, polls, k, GithubTransition(e));
  }

  /** And for reconcile edges. */
  lemma TailPrintsReconcileEdges(
    args: Args, now: int, polls: seq<Poll>, history: seq<ReconcileRow>,
    committed: seq<seq<ReconcileRow>>, b: Bounds, e: Change<string, bool, Audit>, k: int)
    requires InReach(args, now, polls, ReconcileOf, history, committed, b, e, k)
    requires WantedOrg(args, polls, e.cur.key, k)
    ensures PrintedOrGap(args, now, polls, k, ReconcileTransition(e))
  {
    ReconcileOffered(args, now, polls, history, committed, b, e, k);
    OfferedIsPrinted(args, now, polls, k, ReconcileTransition(e));
  }

  // ------------------------------------------------------------------- jobs

  /** The store has a start or an end of this identity that passes the client's filters. */
  ghost predicate SeesJob(args: Args, store: Store, p: Pair) {
    exists x :: x in JobEnds(store.jobs, QueryFor(args, p.0)) && PairOf(x, JobKey) == p
  }

  /** Every answer knows of the job's start or end once it is `delay` old. */
  ghost predicate JobInTime(args: Args, polls: seq<Poll>, p: Pair, b: Bounds) {
    forall k :: 0 <= k < |polls| && polls[k].answer.Some? ==>
      var a := polls[k].answer.value;
      && polls[k].now <= a.at + b.latency
      && (p.0 + b.delay <= a.at ==> SeesJob(args, a.store, p))
  }

  ghost predicate FirstSeen(args: Args, polls: seq<Poll>, p: Pair, k: int) {
    && 0 <= k < |polls| && polls[k].answer.Some? && SeesJob(args, polls[k].answer.value.store, p)
    && forall j :: 0 <= j < k && polls[j].answer.Some? ==> !SeesJob(args, polls[j].answer.value.store, p)
  }

  lemma JobInWindow(args: Args, now: int, polls: seq<Poll>, b: Bounds, p: Pair, k: int)
    requires Followed(polls) && JobInTime(args, polls, p, b) && FirstSeen(args, polls, p, k)
    requires b.delay + b.latency <= Lookback(args.localSecs) + 1 && Start(args, now).since <= p.0
    ensures RunOf(args, now, polls[..k]).since <= p.0
  {
    SinceIs(args, now, polls[..k]);
    var j := LastAnswered(polls[..k]);
    if j >= 0 {
      assert polls[..k][j] == polls[j];
      assert !SeesJob(args, polls[j].answer.value.store, p);
    }
  }

  /** A wider window holds what a narrower one does. */
  lemma JobStaysInWindow(jobs: seq<JobRow>, args: Args, since: int, x: Stamped<JobTransition>)
    requires x in JobEnds(jobs, QueryFor(args, x.ts)) && since <= x.ts
    ensures x in JobEnds(jobs, QueryFor(args, since))
  {
    JobStreamIs(jobs, QueryFor(args, x.ts), x);
    JobStreamIs(jobs, QueryFor(args, since), x);
    var j :| j in jobs && IsEndOf(j, QueryFor(args, x.ts), x);
    assert IsEndOf(j, QueryFor(args, since), x);
  }

  /** What `after` adds to `before` says of jobs that it fell behind, before any job line. */
  ghost predicate HasJobGap(before: seq<Line>, after: seq<Line>, since: int) {
    exists i :: |before| <= i < |after| && IsJobGap(after[i], since) && forall j :: |before| <= j < i ==> after[j].Gap?
  }

  predicate IsJobGap(l: Line, since: int) {
    l.Gap? && l.section == "jobs" && l.since == since
  }

  lemma OutputHasJobGap(c: Client, r: Reply)
    requires r.jobs.limited
    ensures HasJobGap(c.out, c.out + Output(c, r), r.sinceEpoch)
  {
    var out := c.out + Output(c, r);
    var i := |c.out| + if r.transitions.limited then 1 else 0;
    assert out[i] == Gap("jobs", r.sinceEpoch, r.untilEpoch, POLL_LIMIT);
    assert IsJobGap(out[i], r.sinceEpoch);
    forall j | |c.out| <= j < i ensures out[j].Gap? {
      assert out[j] == Output(c, r)[0];
    }
  }

  lemma JobBatchIsPrinted(c: Client, r: Reply, x: Stamped<JobTransition>)
    requires forall p :: p in c.seenJobs ==> p in PrintedJobs(c.out)
    requires x in r.jobs.items
    ensures PairOf(x, JobKey) in PrintedJobs(c.out + Output(c, r))
  {
    var p := PairOf(x, JobKey);
    PrintedOutput(c, r);
    AcceptedPairs(c.seenJobs, r.jobs.items, JobKey);
    PairsAre(r.jobs.items, JobKey, p);
  }

  lemma JobOfferedInStep(args: Args, c: Client, p: Poll, x: Stamped<JobTransition>)
    requires !c.stopped && p.answer.Some? && forall y :: y in c.seenJobs ==> y in PrintedJobs(c.out)
    requires IsReply(p.answer.value.store, QueryFor(args, c.since), p.answer.value.reply)
    requires x in JobEnds(p.answer.value.store.jobs, QueryFor(args, c.since))
    ensures PairOf(x, JobKey) in PrintedJobs(Step(args, c, p).out) || HasJobGap(c.out, Step(args, c, p).out, c.since)
  {
    var r, q := p.answer.value.reply, QueryFor(args, c.since);
    assert Step(args, c, p).out == c.out + Output(c, r);
    if r.jobs.limited {
      OutputHasJobGap(c, r);
    } else {
      UncutHolds(JobEnds(p.answer.value.store.jobs, q), q.limit, r.jobs, x);
      JobBatchIsPrinted(c, r, x);
    }
  }

  /** Every job start and end after the start window is printed by the first poll that can see it, or that
      poll says first that it fell behind: for these, commit delay and latency alone must fit the lookback. */
  lemma TailPrintsJobs(args: Args, now: int, polls: seq<Poll>, b: Bounds, p: Pair, k: int)
    requires ValidRun(args, now, polls) && Followed(polls)
    requires JobInTime(args, polls, p, b) && FirstSeen(args, polls, p, k)
    requires b.delay + b.latency <= Lookback(args.localSecs) + 1 && Start(args, now).since <= p.0
    ensures var c, d := RunOf(args, now, polls[..k]), RunOf(args, now, polls[..k + 1]);
            p in PrintedJobs(d.out) || HasJobGap(c.out, d.out, c.since)
  {
    JobInWindow(args, now, polls, b, p, k);
    PollFacts(args, now, polls, k);
    var c, store := RunOf(args, now, polls[..k]), polls[k].answer.value.store;
    var x :| x in JobEnds(store.jobs, QueryFor(args, p.0)) && PairOf(x, JobKey) == p;
    JobStaysInWindow(store.jobs, args, c.since, x);
    JobOfferedInStep(args, c, polls[k], x);
  }

  // ------------------------------------------------------- the bound is tight

  const NO_ROWS: Reply := Reply(Bounded([], false), Bounded([], false), None, "", "", 0, 0, None)

  function Or(filter: Option<string>, other: string): string {
    if filter.Some? then filter.value else other
  }

  /** A runner the filters pass, if any are set. */
  function SomeAgent(args: Args): Agent {
    Agent(Or(args.org, "org"), 1)
  }

  function Up(args: Args, ts: int): ApiRow {
    Reading(ts, SomeAgent(args), true, ApiInfo(Or(args.runner, "r"), false))
  }

  function Down(args: Args, ts: int): ApiRow {
    Reading(ts, SomeAgent(args), false, ApiInfo(Or(args.runner, "r"), false))
  }

  function ApiStore(rows: seq<ApiRow>): Store {
    Store([], rows, [], [])
  }

  /** The runner goes down between two readings `gap` apart; the first poll runs just before the
      second reading commits, the second just after. */
  function LatePolls(args: Args, b: Bounds): seq<Poll> {
    var t := b.gap + b.delay - 1;
    var start := Start(args, 0).since;
    [Poll(Some(Answer(ApiStore([Up(args, 0)]), t, NO_ROWS.(sinceEpoch := start))), t + b.latency),
     Poll(Some(Answer(ApiStore([Up(args, 0), Down(args, b.gap)]), t + 1,
                      NO_ROWS.(sinceEpoch := t + b.latency - Lookback(args.localSecs)))), t + 1 + b.latency)]
  }

  /** Nothing is deleted in between. */
  function LateCommits(args: Args, b: Bounds): seq<seq<ApiRow>> {
    [[Up(args, 0)], [Up(args, 0), Down(args, b.gap)]]
  }

  lemma LoneRowHasNoEdges(r: ApiRow)
    ensures Changes([r]) == []
  {
    var lag := Lag([r], r);
    assert lag.None?;
    assert [r][1..] == [];
    assert ChangesIn([r], [r]) == [] + ChangesIn([r], [r][1..]);
  }

  lemma NoEdgesInStore(rows: seq<ApiRow>, q: Query)
    requires |Where(rows, ApiWindow(q))| <= 1
    ensures HasNothing(ApiStore(rows), q)
  {
    var w := Where(rows, ApiWindow(q));
    if w != [] {
      assert w == [w[0]];
      LoneRowHasNoEdges(w[0]);
    }
  }

  /** Past the bound the promise fails, for every choice of gap, delay, latency and filters: a run within
      them all prints neither the edge nor a gap line. */
  lemma BeyondTheBoundAnEdgeIsLost(args: Args, b: Bounds)
    requires b.gap >= 1 && b.delay >= 0 && b.latency >= 0
    requires b.gap + b.delay + b.latency > Lookback(args.localSecs) + 1
    ensures var polls, history, committed := LatePolls(args, b), [Up(args, 0), Down(args, b.gap)], LateCommits(args, b);
            && ValidRun(args, 0, polls) && Followed(polls) && StreamInTime(polls, ApiOf, history, committed, b)
            && Change(Up(args, 0), Down(args, b.gap)) in Changes(history) && Start(args, 0).since <= 0
            && FirstSight(polls, committed, Down(args, b.gap), 1)
            && Holds(ApiOf(polls[1].answer.value.store), Change(Up(args, 0), Down(args, b.gap)))
            && Wanted(args, SomeAgent(args).org, Up(args, 0).info.name)
            && RunOf(args, 0, polls).out == []
  {
    LateEdge(args, b.gap);
    LatePollsAreValid(args, b);
    LatePollsAreInTime(args, b);
  }

  lemma NothingEarly(args: Args, q: Query)
    ensures HasNothing(ApiStore([Up(args, 0)]), q)
  {
    WhereSize([Up(args, 0)], ApiWindow(q));
    NoEdgesInStore([Up(args, 0)], q);
  }

  lemma NothingLate(args: Args, gap: int, q: Query)
    requires q.since > 0
    ensures HasNothing(ApiStore([Up(args, 0), Down(args, gap)]), q)
  {
    TwoRowWindow(args, gap, q);
    NoEdgesInStore([Up(args, 0), Down(args, gap)], q);
  }

  lemma LatePollsAreValid(args: Args, b: Bounds)
    requires b.gap >= 1 && b.delay >= 0 && b.latency >= 0
    requires b.gap + b.delay + b.latency > Lookback(args.localSecs) + 1
    ensures ValidRun(args, 0, LatePolls(args, b)) && RunOf(args, 0, LatePolls(args, b)).out == []
  {
    var polls := LatePolls(args, b);
    NothingEarly(args, QueryFor(args, Start(args, 0).since));
    NothingLate(args, b.gap, QueryFor(args, polls[0].now - Lookback(args.localSecs)));
    TwoPollsAreValid(args, polls[0], polls[1]);
    TwoPolls(args, polls[0], polls[1]);
  }

  lemma {:induction false} WhereSize<T>(s: seq<T>, keep: T -> bool)
    ensures |Where(s, keep)| <= |s|
  {
    if s != [] {
      WhereSize(s[1..], keep);
    }
  }

  lemma LatePollsAreInTime(args: Args, b: Bounds)
    requires b.gap >= 1 && b.delay >= 0 && b.latency >= 0
    ensures StreamInTime(LatePolls(args, b), ApiOf, [Up(args, 0), Down(args, b.gap)], LateCommits(args, b), b)
    ensures FirstSight(LatePolls(args, b), LateCommits(args, b), Down(args, b.gap), 1)
  {
    LateEdge(args, b.gap);
  }

  lemma LateEdge(args: Args, gap: int)
    requires gap >= 1
    ensures UniqueTs([Up(args, 0), Down(args, gap)])
    ensures Change(Up(args, 0), Down(args, gap)) in Changes([Up(args, 0), Down(args, gap)])
  {
    var history := [Up(args, 0), Down(args, gap)];
    AsOfIs(history, SomeAgent(args), gap - 1, Up(args, 0));
    ChangesInIs(history, history, Change(Up(args, 0), Down(args, gap)));
  }

  lemma TwoRowWindow(args: Args, gap: int, q: Query)
    requires q.since > 0
    ensures |Where([Up(args, 0), Down(args, gap)], ApiWindow(q))| <= 1
  {
    var keep := ApiWindow(q);
    assert [Up(args, 0), Down(args, gap)] == [Up(args, 0)] + [Down(args, gap)];
    WhereConcat([Up(args, 0)], [Down(args, gap)], keep);
    assert [Up(args, 0)][1..] == [] && [Down(args, gap)][1..] == [];
  }

  /** Such a poll is answered, with nothing. */
  predicate IsEmpty(p: Poll) {
    && p.answer.Some?
    && p.answer.value.reply.transitions == Bounded([], false) && p.answer.value.reply.jobs == Bounded([], false)
  }

  /** A client polls twice and gets two empty answers. */
  lemma TwoPolls(args: Args, first: Poll, second: Poll)
    requires IsEmpty(first) && IsEmpty(second)
    ensures var polls := [first, second];
            && RunOf(args, 0, polls[..0]).since == Start(args, 0).since
            && RunOf(args, 0, polls[..1]).since == first.now - Lookback(args.localSecs)
            && RunOf(args, 0, polls).out == []
  {
    var polls := [first, second];
    var front := polls[..1];
    assert polls[..0] == [] && front[..|front| - 1] == [] && front[|front| - 1] == first;
    assert polls[..|polls| - 1] == front;
    EmptyAnswer(args, RunOf(args, 0, []), first);
    assert RunOf(args, 0, front) == Step(args, RunOf(args, 0, []), first);
    EmptyAnswer(args, RunOf(args, 0, front), second);
  }

  /** The store has nothing for the query. */
  predicate HasNothing(s: Store, q: Query) {
    AllEdges(s, q) == [] && JobEnds(s.jobs, q) == []
  }

  /** The poll is answered with nothing, and the collector has nothing for `q`. */
  predicate Answers(p: Poll, q: Query) {
    IsEmpty(p) && HasNothing(p.answer.value.store, q) && p.answer.value.reply.sinceEpoch == q.since
  }

  lemma NothingIsReplied(p: Poll, q: Query)
    requires Answers(p, q)
    ensures IsReply(p.answer.value.store, q, p.answer.value.reply)
  {
  }

  lemma PollsAnswer(args: Args, first: Poll, second: Poll, k: nat)
    requires k < 2 && Answers(first, QueryFor(args, Start(args, 0).since))
    requires Answers(second, QueryFor(args, first.now - Lookback(args.localSecs)))
    ensures Answers([first, second][k], QueryFor(args, RunOf(args, 0, [first, second][..k]).since))
  {
    TwoPolls(args, first, second);
  }

  lemma TwoPollsAreValid(args: Args, first: Poll, second: Poll)
    requires 0 <= first.now <= second.now
    requires Answers(first, QueryFor(args, Start(args, 0).since))
    requires Answers(second, QueryFor(args, first.now - Lookback(args.localSecs)))
    ensures ValidRun(args, 0, [first, second])
  {
    var polls := [first, second];
    forall k | 0 <= k < |polls|
      ensures ClockBefore(0, polls, k) <= polls[k].now
      ensures IsReply(polls[k].answer.value.store, QueryFor(args, RunOf(args, 0, polls[..k]).since),
                      polls[k].answer.value.reply)
    {
      PollsAnswer(args, first, second, k);
      NothingIsReplied(polls[k], QueryFor(args, RunOf(args, 0, polls[..k]).since));
    }
  }

  lemma EmptyAnswer(args: Args, c: Client, p: Poll)
    requires !c.stopped && IsEmpty(p) && c.out == []
    ensures Step(args, c, p).out == [] && !Step(args, c, p).stopped
    ensures Step(args, c, p).since == p.now - Lookback(args.localSecs)
  {
  }

  // ---------------------------------------------------------- and that of jobs

  function LateJob(args: Args): JobRow {
    JobRow(Or(args.org, "org"), Or(args.runner, "r"), "org/repo", "build", Some(0), None, None)
  }

  function LateStart(args: Args): Stamped<JobTransition> {
    var j := LateJob(args);
    Stamped(0, JobTransition(j.org, j.runner, j.repo, j.job, JobStarted))
  }

  function JobsStore(jobs: seq<JobRow>): Store {
    Store([], [], [], jobs)
  }

  /** A job starts at 0; the first poll runs just before that is committed, the second just after. */
  function LateJobPolls(args: Args, b: Bounds): seq<Poll> {
    var t := b.delay - 1;
    [Poll(Some(Answer(JobsStore([]), t, NO_ROWS.(sinceEpoch := Start(args, 0).since))), t + b.latency),
     Poll(Some(Answer(JobsStore([LateJob(args)]), t + 1,
                      NO_ROWS.(sinceEpoch := t + b.latency - Lookback(args.localSecs)))), t + 1 + b.latency)]
  }

  lemma NoJobEnds(args: Args, jobs: seq<JobRow>, since: int)
    requires jobs == [] || (jobs == [LateJob(args)] && since > 0)
    ensures HasNothing(JobsStore(jobs), QueryFor(args, since))
  {
    if jobs != [] {
      assert jobs[1..] == [];
      assert JobEnds(jobs[1..], QueryFor(args, since)) == [];
    }
    assert AllEdges(JobsStore(jobs), QueryFor(args, since)) == [];
  }

  lemma LateJobRunIsValid(args: Args, b: Bounds)
    requires b.delay >= 0 && b.latency >= 0 && b.delay + b.latency > Lookback(args.localSecs) + 1
    ensures ValidRun(args, 0, LateJobPolls(args, b)) && RunOf(args, 0, LateJobPolls(args, b)).out == []
  {
    var polls := LateJobPolls(args, b);
    NoJobEnds(args, [], Start(args, 0).since);
    NoJobEnds(args, [LateJob(args)], polls[0].now - Lookback(args.localSecs));
    TwoPollsAreValid(args, polls[0], polls[1]);
    TwoPolls(args, polls[0], polls[1]);
  }

  /** Past their own bound jobs are lost too, for every delay, latency and filters. */
  lemma BeyondTheBoundAJobIsLost(args: Args, b: Bounds)
    requires b.delay >= 0 && b.latency >= 0 && b.delay + b.latency > Lookback(args.localSecs) + 1
    ensures var polls, p := LateJobPolls(args, b), PairOf(LateStart(args), JobKey);
            && ValidRun(args, 0, polls) && Followed(polls) && JobInTime(args, polls, p, b)
            && FirstSeen(args, polls, p, 1) && Start(args, 0).since <= p.0
            && RunOf(args, 0, polls).out == []
  {
    LateJobRunIsValid(args, b);
    LateJobIsSeen(args);
    LateJobInTime(args, b, PairOf(LateStart(args), JobKey));
  }

  lemma LateJobInTime(args: Args, b: Bounds, p: Pair)
    requires p.0 == 0
    requires SeesJob(args, JobsStore([LateJob(args)]), p) && !SeesJob(args, JobsStore([]), p)
    ensures JobInTime(args, LateJobPolls(args, b), p, b) && FirstSeen(args, LateJobPolls(args, b), p, 1)
  {
  }

  lemma LateJobIsSeen(args: Args)
    ensures SeesJob(args, JobsStore([LateJob(args)]), PairOf(LateStart(args), JobKey))
    ensures !SeesJob(args, JobsStore([]), PairOf(LateStart(args), JobKey))
  {
    var q := QueryFor(args, 0);
    JobStreamIs([LateJob(args)], q, LateStart(args));
    assert IsEndOf(LateJob(args), q, LateStart(args)) && LateJob(args) in [LateJob(args)];
    assert JobEnds([], q) == [];
  }
}
