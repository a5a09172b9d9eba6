/** When the line `tail` prints for an edge is that edge's own, and not one of the same identity. */
module OwnLines {
  import opened Seqs
  import opened Text
  import opened Readings
  import opened Bounded
  import opened Timeline
  import opened Tail
  import opened TailRuns
  import opened TailCompleteness

  // -------------------------------------------------------------- identities

  lemma FirstBar(a: string, x: string, b: string, y: string)
    requires '|' !in a && '|' !in b && a + "|" + x == b + "|" + y
    ensures a == b && x == y
  {
    SplitOnceAt(a, '|', x);
    SplitOnceAt(b, '|', y);
  }

  lemma LastBar(a: string, x: string, b: string, y: string)
    requires '|' !in x && '|' !in y && a + "|" + x == b + "|" + y
    ensures a == b && x == y
  {
    var s, t := a + "|" + x, b + "|" + y;
    assert s[|a|] == '|' && t[|b|] == '|';
    if |x| == |y| {
      assert s[..|a|] == a && t[..|b|] == b && s[|a| + 1..] == x && t[|b| + 1..] == y;
    }
  }

  lemma SamePrefix(kind: string, x: string, y: string)
    requires kind + x == kind + y
    ensures x == y
  {
    assert (kind + x)[|kind|..] == x && (kind + y)[|kind|..] == y;
  }

  function OnlineText(online: bool): string {
    if online then "true" else "false"
  }

  /** A runner's identity names its organisation, its runner and its value. */
  lemma RunnerIdentity(kind: string, a: string, m: string, x: string, b: string, n: string, y: string)
    requires '|' !in a && '|' !in b && '|' !in x && '|' !in y
    requires kind + a + "|" + m + "|" + x == kind + b + "|" + n + "|" + y
    ensures a == b && m == n && x == y
  {
    assert kind + a + "|" + m + "|" + x == kind + (a + "|" + (m + "|" + x));
    assert kind + b + "|" + n + "|" + y == kind + (b + "|" + (n + "|" + y));
    SamePrefix(kind, a + "|" + (m + "|" + x), b + "|" + (n + "|" + y));
    FirstBar(a, m + "|" + x, b, n + "|" + y);
    LastBar(m, x, n, y);
  }

  /** Identities of different streams differ. */
  lemma KindOf(t: Transition)
    ensures TransitionKey(t) != ""
    ensures TransitionKey(t)[0] == match t.edge
                                   case LivenessEdge(_, _, _) => 'l'
                                   case GithubOnline(_, _) => 'g'
                                   case _ => 'r'
  {
  }

  lemma LivenessIdentity(t: Transition, u: Transition)
    requires t.edge.LivenessEdge? && TransitionKey(t) == TransitionKey(u)
    ensures u.edge.LivenessEdge?
    ensures '|' !in t.org && '|' !in u.org ==>
      u.org == t.org && u.edge.runner == t.edge.runner && u.edge.to == t.edge.to
  {
    KindOf(t);
    KindOf(u);
    if '|' !in t.org && '|' !in u.org {
      RunnerIdentity("l|", t.org, t.edge.runner, LivenessText(t.edge.to),
        u.org, u.edge.runner, LivenessText(u.edge.to));
      assert LivenessText(t.edge.to)[0] == LivenessText(u.edge.to)[0];
    }
  }

  lemma GithubIdentity(t: Transition, u: Transition)
    requires t.edge.GithubOnline? && TransitionKey(t) == TransitionKey(u)
    ensures u.edge.GithubOnline?
    ensures '|' !in t.org && '|' !in u.org ==>
      u.org == t.org && u.edge.runner == t.edge.runner && u.edge.online == t.edge.online
  {
    KindOf(t);
    KindOf(u);
    if '|' !in t.org && '|' !in u.org {
      RunnerIdentity("g|", t.org, t.edge.runner, OnlineText(t.edge.online),
        u.org, u.edge.runner, OnlineText(u.edge.online));
      assert OnlineText(t.edge.online)[0] == OnlineText(u.edge.online)[0];
    }
  }

  predicate IsReconcile(t: Transition) {
    t.edge.Recovered? || t.edge.Failed?
  }

  function ReconcileText(t: Transition): string
    requires IsReconcile(t)
  {
    match t.edge
    case Recovered => "ok"
    case Failed(kind, _) => "fail|" + (if kind.Some? then kind.value else "")
  }

  lemma ReconcileIdentity(t: Transition, u: Transition)
    requires IsReconcile(t) && TransitionKey(t) == TransitionKey(u)
    ensures IsReconcile(u)
    ensures '|' !in t.org && '|' !in u.org ==> u.org == t.org
  {
    KindOf(t);
    KindOf(u);
    if '|' !in t.org && '|' !in u.org {
      var x, y := ReconcileText(t), ReconcileText(u);
      assert TransitionKey(t) == "r|" + (t.org + "|" + x) && TransitionKey(u) == "r|" + (u.org + "|" + y);
      SamePrefix("r|", t.org + "|" + x, u.org + "|" + y);
      FirstBar(t.org, x, u.org, y);
    }
  }

  // ------------------------------------------------------------ whose edge it is

  ghost predicate SamePair(t: Stamped<Transition>, u: Stamped<Transition>) {
    PairOf(t, TransitionKey) == PairOf(u, TransitionKey)
  }

  /** `t` is worded by `f` from a step of `rows` to `cur`. */
  ghost predicate LeadsTo<K(!new), V(!new), X(!new)>(
    rows: seq<Reading<K, V, X>>, f: Change<K, V, X> -> Stamped<Transition>, cur: Reading<K, V, X>,
    t: Stamped<Transition>)
  {
    exists p :: IsStep(rows, p, cur) && f(Change(p, cur)) == t
  }

  /** A reading ends one step at most. */
  lemma OneStepEach<K(!new), V(!new), X(!new)>(
    rows: seq<Reading<K, V, X>>, f: Change<K, V, X> -> Stamped<Transition>, e: Change<K, V, X>, t: Stamped<Transition>)
    requires UniqueTs(rows) && e in Changes(rows) && LeadsTo(rows, f, e.cur, t)
    ensures t == f(e)
  {
    EdgesAreSteps(rows, e);
    var p :| IsStep(rows, p, e.cur) && f(Change(p, e.cur)) == t;
    assert p.ts == e.prev.ts;
    assert e == Change(p, e.cur);
  }

  /** Organisations without a bar, and no other runner of that organisation and name at that tick with that
      value. */
  ghost predicate IsAlone(history: seq<LocalRow>, r: LocalRow) {
    && (forall x :: x in history ==> '|' !in x.key.org)
    && forall x :: x in history && x.ts == r.ts && x.key.org == r.key.org && x.info == r.info ==>
         x.value == r.value ==> x == r
  }

  ghost predicate ApiIsAlone(history: seq<ApiRow>, r: ApiRow) {
    && (forall x :: x in history ==> '|' !in x.key.org)
    && forall x :: x in history && x.ts == r.ts && x.key.org == r.key.org && x.info.name == r.info.name ==>
         x.value == r.value ==> x == r
  }

  lemma LeadsFrom<K(!new), V(!new), X(!new)>(
    rows: seq<Reading<K, V, X>>, f: Change<K, V, X> -> Stamped<Transition>, cur: Reading<K, V, X>,
    t: Stamped<Transition>)
    requires UniqueTs(rows) && t in Map(Changes(rows), f)
    requires forall e: Change<K, V, X> :: e.cur in rows && f(e) == t ==> e.cur == cur
    ensures LeadsTo(rows, f, cur, t)
  {
    StreamIs(rows, f, t);
    var e: Change<K, V, X> :| IsStep(rows, e.prev, e.cur) && f(e) == t;
    assert e == Change(e.prev, cur);
  }

  /** Each stream has the edges of its kind. */
  lemma OfItsKind(s: Store, q: Query, t: Stamped<Transition>)
    requires t in AllEdges(s, q)
    ensures t.what.edge.LivenessEdge? ==> t in LivenessEdges(s, q)
    ensures t.what.edge.GithubOnline? ==> t in GithubEdges(s, q)
    ensures IsReconcile(t.what) ==> t in ReconcileEdges(s, q)
  {
    MapIs(Changes(Where(s.local, LocalWindow(q))), LivenessTransition, t);
    MapIs(Changes(Where(s.api, ApiWindow(q))), GithubTransition, t);
    MapIs(Changes(Where(s.reconcile, ReconcileWindow(s, q))), ReconcileTransition, t);
  }

  lemma LivenessLeads(s: Store, q: Query, history: seq<LocalRow>, e: Change<Agent, Liveness, string>,
                      t: Stamped<Transition>)
    requires UniqueTs(s.local) && (forall r :: r in s.local ==> r in history)
    requires e.cur in history && IsAlone(history, e.cur)
    requires t in AllEdges(s, q) && SamePair(t, LivenessTransition(e))
    ensures LeadsTo(Where(s.local, LocalWindow(q)), LivenessTransition, e.cur, t)
  {
    LivenessIdentity(LivenessTransition(e).what, t.what);
    OfItsKind(s, q, t);
    WhereUnique(s.local, LocalWindow(q));
    LeadsFrom(Where(s.local, LocalWindow(q)), LivenessTransition, e.cur, t);
  }

  lemma GithubLeads(s: Store, q: Query, history: seq<ApiRow>, e: Change<Agent, bool, ApiInfo>,
                    t: Stamped<Transition>)
    requires UniqueTs(s.api) && (forall r :: r in s.api ==> r in history)
    requires e.cur in history && ApiIsAlone(history, e.cur)
    requires t in AllEdges(s, q) && SamePair(t, GithubTransition(e))
    ensures LeadsTo(Where(s.api, ApiWindow(q)), GithubTransition, e.cur, t)
  {
    GithubIdentity(GithubTransition(e).what, t.what);
    OfItsKind(s, q, t);
    WhereUnique(s.api, ApiWindow(q));
    LeadsFrom(Where(s.api, ApiWindow(q)), GithubTransition, e.cur, t);
  }

  lemma ReconcileLeads(s: Store, q: Query, history: seq<ReconcileRow>, e: Change<string, bool, Audit>,
                       t: Stamped<Transition>)
    requires UniqueTs(s.reconcile) && UniqueTs(history) && (forall r :: r in s.reconcile ==> r in history)
    requires e.cur in history && forall x :: x in history ==> '|' !in x.key
    requires t in AllEdges(s, q) && SamePair(t, ReconcileTransition(e))
    ensures LeadsTo(Where(s.reconcile, ReconcileWindow(s, q)), ReconcileTransition, e.cur, t)
  {
    ReconcileIdentity(ReconcileTransition(e).what, t.what);
    OfItsKind(s, q, t);
    WhereUnique(s.reconcile, ReconcileWindow(s, q));
    LeadsFrom(Where(s.reconcile, ReconcileWindow(s, q)), ReconcileTransition, e.cur, t);
  }

  // ------------------------------------------------------------------- the run

  /** Poll `j` offered `t`. */
  ghost predicate Offered(args: Args, now: int, polls: seq<Poll>, j: int, t: Stamped<Transition>) {
    && 0 <= j < |polls| && polls[j].answer.Some?
    && t in AllEdges(polls[j].answer.value.store, QueryAt(args, now, polls, j))
  }

  lemma OfferedInPrefix(args: Args, now: int, polls: seq<Poll>, n: nat, j: int, t: Stamped<Transition>)
    requires n <= |polls| && Offered(args, now, polls[..n], j, t)
    ensures j < n && Offered(args, now, polls, j, t)
  {
    assert polls[..n][..j] == polls[..j] && polls[..n][j] == polls[j];
  }

  /** An identity the client holds was offered by an earlier poll. */
  lemma {:induction false} SeenWasOffered(args: Args, now: int, polls: seq<Poll>, p: Pair)
    returns (j: int, t: Stamped<Transition>)
    requires ValidRun(args, now, polls) && p in RunOf(args, now, polls).seen
    ensures Offered(args, now, polls, j, t) && PairOf(t, TransitionKey) == p
  {
    var n := |polls| - 1;
    var front := polls[..n];
    ValidPrefix(args, now, polls, n);
    if p in RunOf(args, now, front).seen {
      j, t := SeenWasOffered(args, now, front, p);
      OfferedInPrefix(args, now, polls, n, j, t);
    } else {
      j := n;
      t := NewlySeen(args, RunOf(args, now, front), polls[n], p);
    }
  }

  lemma NewlySeen(args: Args, c: Client, poll: Poll, p: Pair) returns (t: Stamped<Transition>)
    requires p !in c.seen && p in Step(args, c, poll).seen
    requires poll.answer.Some? ==>
      IsReply(poll.answer.value.store, QueryFor(args, c.since), poll.answer.value.reply)
    ensures poll.answer.Some? && t in AllEdges(poll.answer.value.store, QueryFor(args, c.since))
    ensures PairOf(t, TransitionKey) == p
  {
    var r := poll.answer.value.reply.transitions;
    assert p in Pairs(r.items, TransitionKey);
    PairsAre(r.items, TransitionKey, p);
    var i :| 0 <= i < |r.items| && p == PairOf(r.items[i], TransitionKey);
    t := r.items[i];
    KeptIsFromAll(AllEdges(poll.answer.value.store, QueryFor(args, c.since)), POLL_LIMIT, r, t);
  }

  /** Of a batch whose items of `t`'s identity are all `t`, a cursor without it accepts `t`. */
  lemma {:induction false} AcceptsIt(seen: set<Pair>, items: seq<Stamped<Transition>>, t: Stamped<Transition>)
    requires t in items && PairOf(t, TransitionKey) !in seen
    requires forall u :: u in items && SamePair(u, t) ==> u == t
    ensures t in Accepted(seen, items, TransitionKey)
  {
    var front, x := items[..|items| - 1], items[|items| - 1];
    assert items == front + [x];
    if t in front {
      AcceptsIt(seen, front, t);
    } else {
      PairsAre(front, TransitionKey, PairOf(t, TransitionKey));
      forall i | 0 <= i < |front| ensures PairOf(front[i], TransitionKey) != PairOf(t, TransitionKey) {
        assert front[i] in front && front[i] in items;
      }
    }
  }

  lemma {:induction false} LineOf(ts: seq<Stamped<Transition>>, t: Stamped<Transition>)
    requires t in ts
    ensures TransitionLine(t) in TransitionLines(ts)
  {
    var front, x := ts[..|ts| - 1], ts[|ts| - 1];
    if t in front {
      LineOf(front, t);
    } else {
      assert ts == front + [x];
    }
  }

  /** The edge's own line is in the output by the end of poll `k`, or a gap line opens that poll's. */
  ghost predicate OwnLineOrGap(args: Args, now: int, polls: seq<Poll>, k: nat, t: Stamped<Transition>)
    requires k < |polls|
  {
    TransitionLine(t) in RunOf(args, now, polls[..k + 1]).out || GapFirst(args, now, polls, k)
  }

  /** No earlier poll offered its identity, and this one only it. */
  ghost predicate IsOwn(args: Args, now: int, polls: seq<Poll>, k: nat, t: Stamped<Transition>) {
    && Offered(args, now, polls, k, t)
    && (forall j, u :: 0 <= j < k && Offered(args, now, polls, j, u) ==> !SamePair(u, t))
    && forall u :: Offered(args, now, polls, k, u) && SamePair(u, t) ==> u == t
  }

  lemma OwnIsNotSeen(args: Args, now: int, polls: seq<Poll>, k: nat, t: Stamped<Transition>)
    requires ValidRun(args, now, polls) && k < |polls| && IsOwn(args, now, polls, k, t)
    ensures PairOf(t, TransitionKey) !in RunOf(args, now, polls[..k]).seen
  {
    if PairOf(t, TransitionKey) in RunOf(args, now, polls[..k]).seen {
      ValidPrefix(args, now, polls, k);
      var j, u := SeenWasOffered(args, now, polls[..k], PairOf(t, TransitionKey));
      OfferedInPrefix(args, now, polls, k, j, u);
      assert false;
    }
  }

  /** An edge that is its identity's only one up to this poll has its own line. */
  lemma OwnLineIsPrinted(args: Args, now: int, polls: seq<Poll>, k: nat, t: Stamped<Transition>)
    requires ValidRun(args, now, polls) && Followed(polls) && k < |polls| && IsOwn(args, now, polls, k, t)
    ensures OwnLineOrGap(args, now, polls, k, t)
  {
    var c := RunOf(args, now, polls[..k]);
    PollFacts(args, now, polls, k);
    OwnIsNotSeen(args, now, polls, k, t);
    forall u | u in AllEdges(polls[k].answer.value.store, QueryFor(args, c.since)) && SamePair(u, t) ensures u == t {
      assert Offered(args, now, polls, k, u);
    }
    OwnLineInStep(args, c, polls[k], t);
  }

  lemma OwnLineInStep(args: Args, c: Client, p: Poll, t: Stamped<Transition>)
    requires !c.stopped && p.answer.Some? && PairOf(t, TransitionKey) !in c.seen
    requires IsReply(p.answer.value.store, QueryFor(args, c.since), p.answer.value.reply)
    requires t in AllEdges(p.answer.value.store, QueryFor(args, c.since))
    requires forall u :: u in AllEdges(p.answer.value.store, QueryFor(args, c.since)) && SamePair(u, t) ==> u == t
    ensures TransitionLine(t) in Step(args, c, p).out || OpensWithGap(c.out, Step(args, c, p).out, c.since)
  {
    var r, q := p.answer.value.reply, QueryFor(args, c.since);
    var all := AllEdges(p.answer.value.store, q);
    assert Step(args, c, p).out == c.out + Output(c, r);
    if r.transitions.limited {
      OutputOpensWithGap(c, r);
    } else {
      UncutHolds(all, q.limit, r.transitions, t);
      forall u | u in r.transitions.items ensures u in all {
        KeptIsFromAll(all, q.limit, r.transitions, u);
      }
      AcceptsIt(c.seen, r.transitions.items, t);
      LineOf(Accepted(c.seen, r.transitions.items, TransitionKey), t);
      assert TransitionLine(t) in Output(c, r);
    }
  }

  // ----------------------------------------------------------------- the streams

  /** Whatever poll offers an edge of `t`'s identity, it is worded from a step to `cur`. */
  ghost predicate IsOnlyOf<K(!new), V(!new), X(!new)>(
    args: Args, now: int, polls: seq<Poll>, windowOf: (Store, Query) -> seq<Reading<K, V, X>>,
    f: Change<K, V, X> -> Stamped<Transition>, cur: Reading<K, V, X>, t: Stamped<Transition>)
  {
    forall j, u :: Offered(args, now, polls, j, u) && SamePair(u, t) ==>
      LeadsTo(windowOf(polls[j].answer.value.store, QueryAt(args, now, polls, j)), f, cur, u)
  }

  /** Every poll's window holds readings its store had, each once. */
  ghost predicate AreWindows<K(!new), V(!new), X(!new)>(
    rowsOf: Store -> seq<Reading<K, V, X>>, windowOf: (Store, Query) -> seq<Reading<K, V, X>>)
  {
    forall s, q :: UniqueTs(rowsOf(s)) ==>
      UniqueTs(windowOf(s, q)) && forall x :: x in windowOf(s, q) ==> x in rowsOf(s)
  }

  /** The first poll that can see an edge offers it as its identity's only one. */
  lemma FirstOfItsIdentity<K(!new), V(!new), X(!new)>(
    args: Args, now: int, polls: seq<Poll>, rowsOf: Store -> seq<Reading<K, V, X>>,
    windowOf: (Store, Query) -> seq<Reading<K, V, X>>, f: Change<K, V, X> -> Stamped<Transition>,
    history: seq<Reading<K, V, X>>, committed: seq<seq<Reading<K, V, X>>>, b: Bounds, e: Change<K, V, X>, k: int)
    requires StreamInTime(polls, rowsOf, history, committed, b) && FirstSight(polls, committed, e.cur, k)
    requires AreWindows(rowsOf, windowOf) && IsOnlyOf(args, now, polls, windowOf, f, e.cur, f(e))
    requires e in Changes(windowOf(polls[k].answer.value.store, QueryAt(args, now, polls, k)))
    requires Offered(args, now, polls, k, f(e))
    ensures IsOwn(args, now, polls, k, f(e))
  {
    forall j, u | 0 <= j <= k && Offered(args, now, polls, j, u) && SamePair(u, f(e)) ensures j == k && u == f(e) {
      var s, q := polls[j].answer.value.store, QueryAt(args, now, polls, j);
      assert IsLeft(committed[j], rowsOf(s)) && LeadsTo(windowOf(s, q), f, e.cur, u);
      if j == k {
        OneStepEach(windowOf(s, q), f, e, u);
      }
    }
  }

  function LocalRows(): (Store, Query) -> seq<LocalRow> {
    (s: Store, q: Query) => Where(s.local, LocalWindow(q))
  }

  function ApiRows(): (Store, Query) -> seq<ApiRow> {
    (s: Store, q: Query) => Where(s.api, ApiWindow(q))
  }

  function ReconcileRows(): (Store, Query) -> seq<ReconcileRow> {
    (s: Store, q: Query) => Where(s.reconcile, ReconcileWindow(s, q))
  }

  /** What poll `j` could see of the stream. */
  lemma SeenRows<K, V, X>(
    polls: seq<Poll>, rowsOf: Store -> seq<Reading<K, V, X>>, history: seq<Reading<K, V, X>>,
    committed: seq<seq<Reading<K, V, X>>>, b: Bounds, j: int)
    requires StreamInTime(polls, rowsOf, history, committed, b) && 0 <= j < |polls| && polls[j].answer.Some?
    ensures var rows := rowsOf(polls[j].answer.value.store); UniqueTs(rows) && forall x :: x in rows ==> x in history
  {
    assert Sees(history, committed[j]) && IsLeft(committed[j], rowsOf(polls[j].answer.value.store));
  }

  /** Every liveness edge in reach, of a runner alone in its name, has its own line by the first poll after its
      commit, or that poll opens with a gap line. */
  lemma TailPrintsOwnLivenessLine(
    args: Args, now: int, polls: seq<Poll>, history: seq<LocalRow>,
    committed: seq<seq<LocalRow>>, b: Bounds, e: Change<Agent, Liveness, string>, k: int)
    requires InReach(args, now, polls, LocalOf, history, committed, b, e, k)
    requires NamesAreStable(history) && Wanted(args, e.cur.key.org, e.prev.info) && IsAlone(history, e.cur)
    ensures OwnLineOrGap(args, now, polls, k, LivenessTransition(e))
  {
    LivenessOffered(args, now, polls, history, committed, b, e, k);
    ChangesInIs(history, history, e);
    forall j, u | Offered(args, now, polls, j, u) && SamePair(u, LivenessTransition(e))
      ensures LeadsTo(LocalRows()(polls[j].answer.value.store, QueryAt(args, now, polls, j)),
                      LivenessTransition, e.cur, u)
    {
      SeenRows(polls, LocalOf, history, committed, b, j);
      LivenessLeads(polls[j].answer.value.store, QueryAt(args, now, polls, j), history, e, u);
    }
    forall s: Store, q: Query | UniqueTs(LocalOf(s)) ensures UniqueTs(LocalRows()(s, q)) {
      WhereUnique(s.local, LocalWindow(q));
    }
    FirstOfItsIdentity(args, now, polls, LocalOf, LocalRows(), LivenessTransition, history, committed, b, e, k);
    OwnLineIsPrinted(args, now, polls, k, LivenessTransition(e));
  }

  lemma TailPrintsOwnGithubLine(
    args: Args, now: int, polls: seq<Poll>, history: seq<ApiRow>,
    committed: seq<seq<ApiRow>>, b: Bounds, e: Change<Agent, bool, ApiInfo>, k: int)
    requires InReach(args, now, polls, ApiOf, history, committed, b, e, k)
    requires ApiNamesAreStable(history) && Wanted(args, e.cur.key.org, e.prev.info.name) && ApiIsAlone(history, e.cur)
    ensures OwnLineOrGap(args, now, polls, k, GithubTransition(e))
  {
    GithubOffered(args, now, polls, history, committed, b, e, k);
    ChangesInIs(history, history, e);
    forall j, u | Offered(args, now, polls, j, u) && SamePair(u, GithubTransition(e))
      ensures LeadsTo(ApiRows()(polls[j].answer.value.store, QueryAt(args, now, polls, j)), GithubTransition, e.cur, u)
    {
      SeenRows(polls, ApiOf, history, committed, b, j);
      GithubLeads(polls[j].answer.value.store, QueryAt(args, now, polls, j), history, e, u);
    }
    forall s: Store, q: Query | UniqueTs(ApiOf(s)) ensures UniqueTs(ApiRows()(s, q)) {
      WhereUnique(s.api, ApiWindow(q));
    }
    FirstOfItsIdentity(args, now, polls, ApiOf, ApiRows(), GithubTransition, history, committed, b, e, k);
    OwnLineIsPrinted(args, now, polls, k, GithubTransition(e));
  }

  /** A reconcile edge needs no more than organisations without a bar: an organisation has one reading a tick. */
  lemma TailPrintsOwnReconcileLine(
    args: Args, now: int, polls: seq<Poll>, history: seq<ReconcileRow>,
    committed: seq<seq<ReconcileRow>>, b: Bounds, e: Change<string, bool, Audit>, k: int)
    requires InReach(args, now, polls, ReconcileOf, history, committed, b, e, k)
    requires WantedOrg(args, polls, e.cur.key, k) && forall x :: x in history ==> '|' !in x.key
    ensures OwnLineOrGap(args, now, polls, k, ReconcileTransition(e))
  {
    ReconcileOffered(args, now, polls, history, committed, b, e, k);
    ChangesInIs(history, history, e);
    forall j, u | Offered(args, now, polls, j, u) && SamePair(u, ReconcileTransition(e))
      ensures LeadsTo(ReconcileRows()(polls[j].answer.value.store, QueryAt(args, now, polls, j)),
                      ReconcileTransition, e.cur, u)
    {
      SeenRows(polls, ReconcileOf, history, committed, b, j);
      ReconcileLeads(polls[j].answer.value.store, QueryAt(args, now, polls, j), history, e, u);
    }
    forall s: Store, q: Query | UniqueTs(ReconcileOf(s)) ensures UniqueTs(ReconcileRows()(s, q)) {
      WhereUnique(s.reconcile, ReconcileWindow(s, q));
    }
    FirstOfItsIdentity(args, now, polls, ReconcileOf, ReconcileRows(), ReconcileTransition, history, committed,
      b, e, k);
    OwnLineIsPrinted(args, now, polls, k, ReconcileTransition(e));
  }

  // --------------------------------------------------------------------- jobs

  predicate IsPlainJob(j: JobTransition) {
    '|' !in j.org && '|' !in j.runner && '|' !in j.repo
  }

  /** A job's identity names its organisation, runner, repository and job, and whether it started or ended. */
  lemma JobIdentity(j: JobTransition, k: JobTransition)
    requires IsPlainJob(j) && IsPlainJob(k) && JobKey(j) == JobKey(k)
    ensures j.org == k.org && j.runner == k.runner && j.repo == k.repo && j.job == k.job
    ensures j.edge.JobStarted? <==> k.edge.JobStarted?
  {
    var a, b := KindText(j), KindText(k);
    JobKeyIs(j);
    JobKeyIs(k);
    FirstBar(a, j.org + "|" + (j.runner + "|" + (j.repo + "|" + j.job)),
      b, k.org + "|" + (k.runner + "|" + (k.repo + "|" + k.job)));
    FirstBar(j.org, j.runner + "|" + (j.repo + "|" + j.job), k.org, k.runner + "|" + (k.repo + "|" + k.job));
    FirstBar(j.runner, j.repo + "|" + j.job, k.runner, k.repo + "|" + k.job);
    FirstBar(j.repo, j.job, k.repo, k.job);
    assert a[0] == b[0];
  }

  function KindText(j: JobTransition): string {
    if j.edge.JobStarted? then "s" else "c"
  }

  lemma JobKeyIs(j: JobTransition)
    ensures JobKey(j) == KindText(j) + "|" + (j.org + "|" + (j.runner + "|" + (j.repo + "|" + j.job)))
  {
  }

  /** An identity of a job the client holds was offered by an earlier poll. */
  lemma {:induction false} SeenJobWasOffered(args: Args, now: int, polls: seq<Poll>, p: Pair)
    returns (j: int, x: Stamped<JobTransition>)
    requires ValidRun(args, now, polls) && p in RunOf(args, now, polls).seenJobs
    ensures 0 <= j < |polls| && polls[j].answer.Some? && PairOf(x, JobKey) == p
    ensures x in JobEnds(polls[j].answer.value.store.jobs, QueryAt(args, now, polls, j))
  {
    var n := |polls| - 1;
    var front := polls[..n];
    ValidPrefix(args, now, polls, n);
    if p in RunOf(args, now, front).seenJobs {
      j, x := SeenJobWasOffered(args, now, front, p);
      SamePoll(args, now, polls, n, j);
    } else {
      j := n;
      x := NewlySeenJob(args, RunOf(args, now, front), polls[n], p);
    }
  }

  lemma SamePoll(args: Args, now: int, polls: seq<Poll>, n: nat, j: int)
    requires 0 <= j < n <= |polls|
    ensures polls[..n][j] == polls[j] && QueryAt(args, now, polls[..n], j) == QueryAt(args, now, polls, j)
  {
    assert polls[..n][..j] == polls[..j];
  }

  lemma NewlySeenJob(args: Args, c: Client, poll: Poll, p: Pair) returns (x: Stamped<JobTransition>)
    requires p !in c.seenJobs && p in Step(args, c, poll).seenJobs
    requires poll.answer.Some? ==>
      IsReply(poll.answer.value.store, QueryFor(args, c.since), poll.answer.value.reply)
    ensures poll.answer.Some? && x in JobEnds(poll.answer.value.store.jobs, QueryFor(args, c.since))
    ensures PairOf(x, JobKey) == p
  {
    var r := poll.answer.value.reply.jobs;
    assert p in Pairs(r.items, JobKey);
    PairsAre(r.items, JobKey, p);
    var i :| 0 <= i < |r.items| && p == PairOf(r.items[i], JobKey);
    x := r.items[i];
    KeptIsFromAll(JobEnds(poll.answer.value.store.jobs, QueryFor(args, c.since)), POLL_LIMIT, r, x);
  }

  /** What a poll offers of an identity, a query from that tick alone sees too. */
  lemma OfferedIsSeen(args: Args, store: Store, since: int, x: Stamped<JobTransition>)
    requires x in JobEnds(store.jobs, QueryFor(args, since))
    ensures SeesJob(args, store, PairOf(x, JobKey))
  {
    JobStreamIs(store.jobs, QueryFor(args, since), x);
    JobStreamIs(store.jobs, QueryFor(args, x.ts), x);
    var j :| j in store.jobs && IsEndOf(j, QueryFor(args, since), x);
    assert IsEndOf(j, QueryFor(args, x.ts), x);
  }

  lemma {:induction false} AcceptsJob(seen: set<Pair>, items: seq<Stamped<JobTransition>>, x: Stamped<JobTransition>)
    requires x in items && PairOf(x, JobKey) !in seen
    requires forall u :: u in items && PairOf(u, JobKey) == PairOf(x, JobKey) ==> u == x
    ensures x in Accepted(seen, items, JobKey)
  {
    var front, last := items[..|items| - 1], items[|items| - 1];
    assert items == front + [last];
    if x in front {
      AcceptsJob(seen, front, x);
    } else {
      PairsAre(front, JobKey, PairOf(x, JobKey));
      forall i | 0 <= i < |front| ensures PairOf(front[i], JobKey) != PairOf(x, JobKey) {
        assert front[i] in front && front[i] in items;
      }
    }
  }

  lemma {:induction false} JobLineOf(js: seq<Stamped<JobTransition>>, x: Stamped<JobTransition>)
    requires x in js
    ensures JobLine(x) in JobLines(js)
  {
    var front, last := js[..|js| - 1], js[|js| - 1];
    if x in front {
      JobLineOf(front, x);
    } else {
      assert js == front + [last];
    }
  }

  /** The store tells one job of this identity. */
  ghost predicate IsOnlyJob(jobs: seq<JobRow>, q: Query, x: Stamped<JobTransition>) {
    x in JobEnds(jobs, q) && forall u :: u in JobEnds(jobs, q) && PairOf(u, JobKey) == PairOf(x, JobKey) ==> u == x
  }

  lemma OwnJobLineInStep(args: Args, c: Client, p: Poll, x: Stamped<JobTransition>)
    requires !c.stopped && p.answer.Some? && PairOf(x, JobKey) !in c.seenJobs
    requires IsReply(p.answer.value.store, QueryFor(args, c.since), p.answer.value.reply)
    requires IsOnlyJob(p.answer.value.store.jobs, QueryFor(args, c.since), x)
    ensures JobLine(x) in Step(args, c, p).out || HasJobGap(c.out, Step(args, c, p).out, c.since)
  {
    var r, q := p.answer.value.reply, QueryFor(args, c.since);
    var all := JobEnds(p.answer.value.store.jobs, q);
    assert Step(args, c, p).out == c.out + Output(c, r);
    if r.jobs.limited {
      OutputHasJobGap(c, r);
    } else {
      UncutHolds(all, q.limit, r.jobs, x);
      forall u | u in r.jobs.items ensures u in all {
        KeptIsFromAll(all, q.limit, r.jobs, u);
      }
      AcceptsJob(c.seenJobs, r.jobs.items, x);
      JobLineOf(Accepted(c.seenJobs, r.jobs.items, JobKey), x);
      assert JobLine(x) in Output(c, r);
    }
  }

  lemma JobIsNotSeen(args: Args, now: int, polls: seq<Poll>, p: Pair, k: int)
    requires ValidRun(args, now, polls) && FirstSeen(args, polls, p, k)
    ensures p !in RunOf(args, now, polls[..k]).seenJobs
  {
    if p in RunOf(args, now, polls[..k]).seenJobs {
      ValidPrefix(args, now, polls, k);
      var j, x := SeenJobWasOffered(args, now, polls[..k], p);
      assert polls[..k][j] == polls[j];
      OfferedIsSeen(args, polls[j].answer.value.store, QueryAt(args, now, polls[..k], j).since, x);
      assert false;
    }
  }

  /** Every start and end of a job that is its identity's only one, within the bounds, has its own line by the
      first poll that can see it, or that poll says first that it fell behind. */
  lemma TailPrintsOwnJobLine(args: Args, now: int, polls: seq<Poll>, b: Bounds, x: Stamped<JobTransition>, k: int)
    requires ValidRun(args, now, polls) && Followed(polls)
    requires JobInTime(args, polls, PairOf(x, JobKey), b) && FirstSeen(args, polls, PairOf(x, JobKey), k)
    requires b.delay + b.latency <= Lookback(args.localSecs) + 1 && Start(args, now).since <= x.ts
    requires IsOnlyJob(polls[k].answer.value.store.jobs, QueryFor(args, x.ts), x)
    ensures var c, d := RunOf(args, now, polls[..k]), RunOf(args, now, polls[..k + 1]);
            JobLine(x) in d.out || HasJobGap(c.out, d.out, c.since)
  {
    var p, c, jobs := PairOf(x, JobKey), RunOf(args, now, polls[..k]), polls[k].answer.value.store.jobs;
    JobInWindow(args, now, polls, b, p, k);
    PollFacts(args, now, polls, k);
    JobIsNotSeen(args, now, polls, p, k);
    JobStaysInWindow(jobs, args, c.since, x);
    forall u | u in JobEnds(jobs, QueryFor(args, c.since)) && PairOf(u, JobKey) == p ensures u == x {
      JobStaysOnTick(jobs, args, c.since, u);
    }
    OwnJobLineInStep(args, c, polls[k], x);
  }

  lemma JobStaysOnTick(jobs: seq<JobRow>, args: Args, since: int, u: Stamped<JobTransition>)
    requires u in JobEnds(jobs, QueryFor(args, since))
    ensures u in JobEnds(jobs, QueryFor(args, u.ts))
  {
    JobStreamIs(jobs, QueryFor(args, since), u);
    JobStreamIs(jobs, QueryFor(args, u.ts), u);
    var j :| j in jobs && IsEndOf(j, QueryFor(args, since), u);
    assert IsEndOf(j, QueryFor(args, u.ts), u);
  }
}
