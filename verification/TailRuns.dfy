/** Whole runs of `tail`: nothing is printed twice, and nothing is lost without a gap line. */
module TailRuns {
  import opened Seqs
  import opened Readings
  import opened Bounded
  import opened Timeline
  import opened Tail

  /** What the collector's query promises about an answer. */
  ghost predicate IsReply(s: Store, q: Query, r: Reply) {
    && IsNewest(AllEdges(s, q), q.limit, r.transitions)
    && IsNewest(JobEnds(s.jobs, q), q.limit, r.jobs)
    && r.sinceEpoch == q.since
  }

  function ClockBefore(now: int, polls: seq<Poll>, k: nat): int
    requires k <= |polls|
  {
    if k == 0 then now else polls[k - 1].now
  }

  /** Every answer is the collector's answer to the query the client sent, and the clock never runs
      backwards. Unanswered polls are outages. */
  ghost predicate ValidRun(args: Args, now: int, polls: seq<Poll>) {
    forall k :: 0 <= k < |polls| ==>
      && ClockBefore(now, polls, k) <= polls[k].now
      && (polls[k].answer.Some? ==>
            IsReply(polls[k].answer.value.store, QueryFor(args, RunOf(args, now, polls[..k]).since),
                    polls[k].answer.value.reply))
  }

  ghost predicate Distinct<T>(s: seq<T>) {
    forall i, j :: 0 <= i < j < |s| ==> s[i] != s[j]
  }

  /** The identities of the transitions and of the jobs printed so far, in order. */
  function Printed(out: seq<Line>): seq<Pair> {
    if out == [] then []
    else Printed(out[..|out| - 1])
         + (match out[|out| - 1] case TransitionLine(t) => [PairOf(t, TransitionKey)] case _ => [])
  }

  function PrintedJobs(out: seq<Line>): seq<Pair> {
    if out == [] then []
    else PrintedJobs(out[..|out| - 1])
         + (match out[|out| - 1] case JobLine(j) => [PairOf(j, JobKey)] case _ => [])
  }

  function PairSeq<P>(items: seq<Stamped<P>>, key: P -> string): seq<Pair> {
    if items == [] then [] else PairSeq(items[..|items| - 1], key) + [PairOf(items[|items| - 1], key)]
  }

  /** A cursor remembers every printed identity that a query can still return. */
  ghost predicate CursorInv(printed: seq<Pair>, seen: set<Pair>, since: int) {
    && Distinct(printed)
    && (forall p :: p in printed ==> p in seen || p.0 < since)
    && (forall p :: p in seen ==> p in printed)
  }

  // ------------------------------------------------------- output, line by line

  lemma {:induction false} PrintedConcat(a: seq<Line>, b: seq<Line>)
    ensures Printed(a + b) == Printed(a) + Printed(b)
    ensures PrintedJobs(a + b) == PrintedJobs(a) + PrintedJobs(b)
  {
    if b == [] {
      assert a + b == a;
    } else {
      assert (a + b)[..|a + b| - 1] == a + b[..|b| - 1];
      PrintedConcat(a, b[..|b| - 1]);
    }
  }

  lemma {:induction false} PrintedTransitions(ts: seq<Stamped<Transition>>)
    ensures Printed(TransitionLines(ts)) == PairSeq(ts, TransitionKey) && PrintedJobs(TransitionLines(ts)) == []
  {
    if ts != [] {
      PrintedTransitions(ts[..|ts| - 1]);
    }
  }

  lemma {:induction false} PrintedJobLines(js: seq<Stamped<JobTransition>>)
    ensures PrintedJobs(JobLines(js)) == PairSeq(js, JobKey) && Printed(JobLines(js)) == []
  {
    if js != [] {
      PrintedJobLines(js[..|js| - 1]);
    }
  }

  lemma PrintedOutput(c: Client, r: Reply)
    ensures Printed(c.out + Output(c, r))
         == Printed(c.out) + PairSeq(Accepted(c.seen, r.transitions.items, TransitionKey), TransitionKey)
    ensures PrintedJobs(c.out + Output(c, r))
         == PrintedJobs(c.out) + PairSeq(Accepted(c.seenJobs, r.jobs.items, JobKey), JobKey)
  {
    var g, h := GapLine("transitions", r.transitions, r), GapLine("jobs", r.jobs, r);
    var t := Accepted(c.seen, r.transitions.items, TransitionKey);
    var j := Accepted(c.seenJobs, r.jobs.items, JobKey);
    PrintedGap("transitions", r.transitions, r);
    PrintedGap("jobs", r.jobs, r);
    PrintedTransitions(t);
    PrintedJobLines(j);
    PrintedParts(c.out, g, h, TransitionLines(t), JobLines(j));
  }

  lemma PrintedParts(a: seq<Line>, g: seq<Line>, h: seq<Line>, t: seq<Line>, j: seq<Line>)
    requires Printed(g) == Printed(h) == Printed(j) == []
    requires PrintedJobs(g) == PrintedJobs(h) == PrintedJobs(t) == []
    ensures Printed(a + (g + h + t + j)) == Printed(a) + Printed(t)
    ensures PrintedJobs(a + (g + h + t + j)) == PrintedJobs(a) + PrintedJobs(j)
  {
    var gh := g + h;
    var ght := gh + t;
    PrintedConcat(g, h);
    assert Printed(gh) == [] && PrintedJobs(gh) == [];
    PrintedConcat(gh, t);
    assert Printed(ght) == Printed(t) && PrintedJobs(ght) == [];
    PrintedConcat(ght, j);
    assert Printed(ght + j) == Printed(t) && PrintedJobs(ght + j) == PrintedJobs(j);
    PrintedConcat(a, ght + j);
  }

  lemma PrintedGap<P>(section: string, b: Bounded<P>, r: Reply)
    ensures Printed(GapLine(section, b, r)) == [] && PrintedJobs(GapLine(section, b, r)) == []
  {
    var g := GapLine(section, b, r);
    if b.limited {
      assert g[..0] == [];
    }
  }

  /** What a cursor lets through: each identity of the batch that it did not hold, once. */
  lemma {:induction false} AcceptedPairs<P>(seen: set<Pair>, items: seq<Stamped<P>>, key: P -> string)
    ensures var got := PairSeq(Accepted(seen, items, key), key);
            && Distinct(got)
            && (forall p :: p in got ==> p !in seen)
            && (forall p :: p in got <==> p in Pairs(items, key) && p !in seen)
  {
    if items != [] {
      var front, x := items[..|items| - 1], items[|items| - 1];
      AcceptedPairs(seen, front, key);
      var taken := Accepted(seen, front, key);
      if PairOf(x, key) !in seen + Pairs(front, key) {
        assert (taken + [x])[..|taken|] == taken;
      } else {
        assert taken + [] == taken;
      }
    }
  }

  lemma {:induction false} PairsAre<P>(items: seq<Stamped<P>>, key: P -> string, p: Pair)
    ensures p in Pairs(items, key) <==> exists i :: 0 <= i < |items| && p == PairOf(items[i], key)
  {
    if items != [] {
      var front, x := items[..|items| - 1], items[|items| - 1];
      PairsAre(front, key, p);
      assert forall i :: 0 <= i < |front| ==> front[i] == items[i];
      if p == PairOf(x, key) {
        assert p == PairOf(items[|items| - 1], key);
      }
    }
  }

  // ------------------------------------------------------------------ safety

  lemma WindowBoundsEdges(s: Store, q: Query, x: Stamped<Transition>)
    requires x in AllEdges(s, q)
    ensures x.ts >= q.since
  {
    var a, b, c := Where(s.local, LocalWindow(q)), Where(s.api, ApiWindow(q)),
        Where(s.reconcile, ReconcileWindow(s, q));
    if x in LivenessEdges(s, q) {
      var i :| 0 <= i < |LivenessEdges(s, q)| && LivenessEdges(s, q)[i] == x;
      ChangesInIs(a, a, Changes(a)[i]);
    } else if x in GithubEdges(s, q) {
      var i :| 0 <= i < |GithubEdges(s, q)| && GithubEdges(s, q)[i] == x;
      ChangesInIs(b, b, Changes(b)[i]);
    } else {
      var i :| 0 <= i < |ReconcileEdges(s, q)| && ReconcileEdges(s, q)[i] == x;
      ChangesInIs(c, c, Changes(c)[i]);
    }
  }

  lemma {:induction false} WindowBoundsJobs(jobs: seq<JobRow>, q: Query, x: Stamped<JobTransition>)
    requires x in JobEnds(jobs, q)
    ensures x.ts >= q.since
  {
    if x in JobEnds(jobs[1..], q) {
      WindowBoundsJobs(jobs[1..], q, x);
    }
  }

  lemma KeptIsFromAll<P(!new)>(all: seq<Stamped<P>>, limit: nat, b: Bounded<P>, x: Stamped<P>)
    requires IsNewest(all, limit, b) && x in b.items
    ensures x in all
  {
    assert x in multiset(b.items);
    assert x in multiset(all);
  }

  /** One answered poll keeps a cursor's invariant: the batch lies in the window, and pruning forgets
      only what later windows exclude. */
  lemma CursorStep<P>(printed: seq<Pair>, seen: set<Pair>, since: int, items: seq<Stamped<P>>, key: P -> string,
                      next: int)
    requires CursorInv(printed, seen, since) && since <= next
    requires forall x :: x in items ==> x.ts >= since
    ensures CursorInv(printed + PairSeq(Accepted(seen, items, key), key), Pruned(seen + Pairs(items, key), next), next)
  {
    var got := PairSeq(Accepted(seen, items, key), key);
    AcceptedPairs(seen, items, key);
    forall p | p in got ensures p !in printed {
      PairsAre(items, key, p);
      var i :| 0 <= i < |items| && p == PairOf(items[i], key);
      assert items[i] in items;
    }
    DistinctConcat(printed, got);
  }

  lemma DistinctConcat<T>(a: seq<T>, b: seq<T>)
    requires Distinct(a) && Distinct(b) && forall x :: x in b ==> x !in a
    ensures Distinct(a + b)
  {
    var s := a + b;
    forall i, j | 0 <= i < j < |s| ensures s[i] != s[j] {
      if i < |a| <= j {
        assert s[j] == b[j - |a|] && b[j - |a|] in b && s[i] in a;
      }
    }
  }

  lemma ReplyInWindow(s: Store, q: Query, r: Reply)
    requires IsReply(s, q, r)
    ensures forall x :: x in r.transitions.items ==> x.ts >= q.since
    ensures forall x :: x in r.jobs.items ==> x.ts >= q.since
  {
    forall x | x in r.transitions.items ensures x.ts >= q.since {
      KeptIsFromAll(AllEdges(s, q), q.limit, r.transitions, x);
      WindowBoundsEdges(s, q, x);
    }
    forall x | x in r.jobs.items ensures x.ts >= q.since {
      KeptIsFromAll(JobEnds(s.jobs, q), q.limit, r.jobs, x);
      WindowBoundsJobs(s.jobs, q, x);
    }
  }

  ghost predicate ClientInv(args: Args, c: Client, clock: int) {
    && CursorInv(Printed(c.out), c.seen, c.since)
    && CursorInv(PrintedJobs(c.out), c.seenJobs, c.since)
    && c.since <= clock - Lookback(args.localSecs)
  }

  /** An answered poll, cursor by cursor. */
  lemma AnsweredStep(args: Args, c: Client, r: Reply, now: int)
    requires CursorInv(Printed(c.out), c.seen, c.since) && CursorInv(PrintedJobs(c.out), c.seenJobs, c.since)
    requires c.since <= now - Lookback(args.localSecs)
    requires forall x :: x in r.transitions.items ==> x.ts >= c.since
    requires forall x :: x in r.jobs.items ==> x.ts >= c.since
    ensures var next, out := now - Lookback(args.localSecs), c.out + Output(c, r);
            && CursorInv(Printed(out), Pruned(c.seen + Pairs(r.transitions.items, TransitionKey), next), next)
            && CursorInv(PrintedJobs(out), Pruned(c.seenJobs + Pairs(r.jobs.items, JobKey), next), next)
  {
    var next := now - Lookback(args.localSecs);
    CursorStep(Printed(c.out), c.seen, c.since, r.transitions.items, TransitionKey, next);
    CursorStep(PrintedJobs(c.out), c.seenJobs, c.since, r.jobs.items, JobKey, next);
    PrintedOutput(c, r);
  }

  lemma ClientStep(args: Args, c: Client, p: Poll, clock: int)
    requires ClientInv(args, c, clock) && clock <= p.now
    requires p.answer.Some? ==> IsReply(p.answer.value.store, QueryFor(args, c.since), p.answer.value.reply)
    ensures ClientInv(args, Step(args, c, p), p.now)
    ensures c.since <= Step(args, c, p).since
  {
    if !c.stopped && p.answer.Some? {
      ReplyInWindow(p.answer.value.store, QueryFor(args, c.since), p.answer.value.reply);
      AnsweredStep(args, c, p.answer.value.reply, p.now);
    }
  }

  lemma {:induction false} RunInv(args: Args, now: int, polls: seq<Poll>)
    requires ValidRun(args, now, polls)
    ensures ClientInv(args, RunOf(args, now, polls), ClockBefore(now, polls, |polls|))
  {
    if polls != [] {
      var front, p := polls[..|polls| - 1], polls[|polls| - 1];
      forall k | 0 <= k < |front| ensures front[..k] == polls[..k] && front[k] == polls[k] {
      }
      RunInv(args, now, front);
      ClientStep(args, RunOf(args, now, front), p, ClockBefore(now, front, |front|));
    }
  }

  /** Over every run, outages included, no `(ts, identity)` is printed twice. */
  lemma NothingPrintedTwice(args: Args, now: int, polls: seq<Poll>)
    requires ValidRun(args, now, polls)
    ensures Distinct(Printed(RunOf(args, now, polls).out)) && Distinct(PrintedJobs(RunOf(args, now, polls).out))
  {
    RunInv(args, now, polls);
  }

  // ------------------------------------------------------ where lines come from

  /** The line says what poll `j` was answered: an edge or a job of the reply, or that it was cut. */
  ghost predicate IsFromAnswer(args: Args, now: int, polls: seq<Poll>, l: Line, j: int) {
    && 0 <= j < |polls| && polls[j].answer.Some?
    && var r := polls[j].answer.value.reply;
       (match l
        case TransitionLine(t) => t in r.transitions.items
        case JobLine(x) => x in r.jobs.items
        case Gap(section, since, until, limit) =>
          && ((section == "transitions" && r.transitions.limited) || (section == "jobs" && r.jobs.limited))
          && since == r.sinceEpoch && until == r.untilEpoch && limit == 500)
  }

  /** Nothing is printed but what some poll was answered. */
  lemma {:induction false} NothingIsMadeUp(args: Args, now: int, polls: seq<Poll>, l: Line)
    requires l in RunOf(args, now, polls).out
    ensures exists j :: IsFromAnswer(args, now, polls, l, j)
  {
    if polls != [] {
      var n := |polls| - 1;
      var front, c := polls[..n], RunOf(args, now, polls[..n]);
      if l in c.out {
        NothingIsMadeUp(args, now, front, l);
        var j :| IsFromAnswer(args, now, front, l, j);
        assert front[j] == polls[j];
        assert IsFromAnswer(args, now, polls, l, j);
      } else {
        OutputIsOfReply(c, polls[n].answer.value.reply, l);
        assert IsFromAnswer(args, now, polls, l, n);
      }
    }
  }

  lemma OutputIsOfReply(c: Client, r: Reply, l: Line)
    requires l in Output(c, r)
    ensures match l
            case TransitionLine(t) => t in r.transitions.items
            case JobLine(x) => x in r.jobs.items
            case Gap(section, since, until, limit) =>
              && ((section == "transitions" && r.transitions.limited) || (section == "jobs" && r.jobs.limited))
              && since == r.sinceEpoch && until == r.untilEpoch && limit == 500
  {
    TransitionLinesAre(Accepted(c.seen, r.transitions.items, TransitionKey), l);
    JobLinesAre(Accepted(c.seenJobs, r.jobs.items, JobKey), l);
    AcceptedAreItems(c.seen, r.transitions.items, TransitionKey);
    AcceptedAreItems(c.seenJobs, r.jobs.items, JobKey);
  }

  lemma {:induction false} TransitionLinesAre(ts: seq<Stamped<Transition>>, l: Line)
    ensures l in TransitionLines(ts) <==> l.TransitionLine? && l.t in ts
  {
    if ts != [] {
      var front, x := ts[..|ts| - 1], ts[|ts| - 1];
      TransitionLinesAre(front, l);
      assert ts == front + [x];
    }
  }

  lemma {:induction false} JobLinesAre(js: seq<Stamped<JobTransition>>, l: Line)
    ensures l in JobLines(js) <==> l.JobLine? && l.j in js
  {
    if js != [] {
      var front, x := js[..|js| - 1], js[|js| - 1];
      JobLinesAre(front, l);
      assert js == front + [x];
    }
  }

  /** Accepted items are the batch's, and in its order. */
  lemma {:induction false} AcceptedAreItems<P>(seen: set<Pair>, items: seq<Stamped<P>>, key: P -> string)
    ensures forall x :: x in Accepted(seen, items, key) ==> x in items
    ensures OldestFirst(items) ==> OldestFirst(Accepted(seen, items, key))
  {
    if items != [] {
      var front, x := items[..|items| - 1], items[|items| - 1];
      AcceptedAreItems(seen, front, key);
      assert items == front + [x];
      forall y | y in Accepted(seen, front, key) && OldestFirst(items) ensures y.ts <= x.ts {
        var i :| 0 <= i < |front| && front[i] == y;
        assert items[i] == y;
      }
    }
  }

  lemma OutputIs(args: Args, c: Client, p: Poll)
    requires !c.stopped && p.answer.Some?
    ensures var r := p.answer.value.reply;
            Step(args, c, p).out == c.out + (GapLine("transitions", r.transitions, r) + GapLine("jobs", r.jobs, r)
              + TransitionLines(Accepted(c.seen, r.transitions.items, TransitionKey))
              + JobLines(Accepted(c.seenJobs, r.jobs.items, JobKey)))
  {
  }

  /** A poll prints its edges oldest first, after its gap lines, and then its jobs oldest first. */
  lemma PollPrintsInOrder(args: Args, c: Client, p: Poll)
    returns (gaps: seq<Line>, ts: seq<Stamped<Transition>>, js: seq<Stamped<JobTransition>>)
    requires !c.stopped && p.answer.Some?
    requires OldestFirst(p.answer.value.reply.transitions.items) && OldestFirst(p.answer.value.reply.jobs.items)
    ensures Step(args, c, p).out == c.out + (gaps + TransitionLines(ts) + JobLines(js))
    ensures OldestFirst(ts) && OldestFirst(js) && forall l :: l in gaps ==> l.Gap?
  {
    var r := p.answer.value.reply;
    gaps := GapLine("transitions", r.transitions, r) + GapLine("jobs", r.jobs, r);
    ts := Accepted(c.seen, r.transitions.items, TransitionKey);
    js := Accepted(c.seenJobs, r.jobs.items, JobKey);
    OutputIs(args, c, p);
    AcceptedAreItems(c.seen, r.transitions.items, TransitionKey);
    AcceptedAreItems(c.seenJobs, r.jobs.items, JobKey);
  }

  /** An outage at the first poll ends the client; a later one changes nothing but that it is down. What a cursor
      holds after an answer lies in the window, which reaches back four sampling periods, or a minute. */
  lemma Outages(args: Args, c: Client, p: Poll)
    requires !c.stopped
    ensures p.answer.None? ==>
      && Step(args, c, p).out == c.out && Step(args, c, p).since == c.since
      && Step(args, c, p).seen == c.seen && Step(args, c, p).seenJobs == c.seenJobs
      && (Step(args, c, p).stopped <==> c.first) && (!c.first ==> Step(args, c, p).down)
    ensures p.answer.Some? ==>
      && !Step(args, c, p).stopped && !Step(args, c, p).down && !Step(args, c, p).first
      && Step(args, c, p).since == p.now - (if args.localSecs <= 15 then 60 else 4 * args.localSecs)
      && forall x :: x in Step(args, c, p).seen || x in Step(args, c, p).seenJobs ==> x.0 >= Step(args, c, p).since
  {
  }

  /** The first window reaches back as far as later ones, or as far as asked. */
  lemma StartIs(args: Args, now: int)
    ensures var c, back := Start(args, now), now - Start(args, now).since;
            && back >= args.backfill && back >= 60 && back >= 4 * args.localSecs
            && back in {args.backfill, 60, 4 * args.localSecs}
            && c.out == [] && c.first && !c.down && !c.stopped
  {
  }
}
