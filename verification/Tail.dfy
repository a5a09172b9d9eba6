/** `tail`: a client that polls the timeline with overlapping windows and prints each new edge. */
module Tail {
  import opened Wrappers
  import opened Seqs
  import opened Bounded
  import opened Timeline

  const POLL_LIMIT := 500

  datatype Line =
    | TransitionLine(t: Stamped<Transition>)
    | JobLine(j: Stamped<JobTransition>)
    | Gap(section: string, since: int, until: int, limit: nat)

  type Pair = (int, string)

  function LivenessText(l: Liveness): string {
    match l
    case Idle => "idle"
    case Busy => "busy"
    case Offline => "offline"
  }

  /** Identity within one tick; carries the org and the new value. */
  function TransitionKey(t: Transition): string {
    match t.edge
    case LivenessEdge(runner, _, to) => "l|" + t.org + "|" + runner + "|" + LivenessText(to)
    case GithubOnline(runner, online) => "g|" + t.org + "|" + runner + "|" + (if online then "true" else "false")
    case Recovered => "r|" + t.org + "|ok"
    case Failed(kind, _) => "r|" + t.org + "|fail|" + (if kind.Some? then kind.value else "")
  }

  function JobKey(j: JobTransition): string {
    (if j.edge.JobStarted? then "s" else "c") + "|" + j.org + "|" + j.runner + "|" + j.repo + "|" + j.job
  }

  function Max(a: int, b: int): int {
    if a >= b then a else b
  }

  /** Seconds each poll looks back. */
  function Lookback(localSecs: nat): int {
    Max(Max(localSecs, 1) * 4, 60)
  }

  datatype Args = Args(localSecs: nat, backfill: nat, org: Option<string>, runner: Option<string>)

  function QueryFor(args: Args, since: int): Query {
    Query(since, POLL_LIMIT, args.org, args.runner, false)
  }

  // ------------------------------------------------- the client as a function

  datatype Client = Client(since: int, seen: set<Pair>, seenJobs: set<Pair>, out: seq<Line>,
                           first: bool, down: bool, stopped: bool)

  /** A poll: what the collector answered, if it could be reached, and the client's clock after. */
  datatype Poll = Poll(answer: Option<Answer>, now: int)

  /** `at` is the collector's clock when it read `store`. */
  datatype Answer = Answer(store: Store, at: int, reply: Reply)

  function Start(args: Args, now: int): Client {
    Client(now - Max(Lookback(args.localSecs), args.backfill), {}, {}, [], true, false, false)
  }

  function PairOf<P>(x: Stamped<P>, key: P -> string): Pair {
    (x.ts, key(x.what))
  }

  function Pairs<P>(items: seq<Stamped<P>>, key: P -> string): set<Pair> {
    if items == [] then {} else Pairs(items[..|items| - 1], key) + {PairOf(items[|items| - 1], key)}
  }

  /** The items a cursor accepts, in order. */
  function Accepted<P>(seen: set<Pair>, items: seq<Stamped<P>>, key: P -> string): seq<Stamped<P>> {
    if items == [] then []
    else
      var front, x := items[..|items| - 1], items[|items| - 1];
      Accepted(seen, front, key) + (if PairOf(x, key) in seen + Pairs(front, key) then [] else [x])
  }

  function Pruned(seen: set<Pair>, before: int): set<Pair> {
    set p | p in seen && p.0 >= before
  }

  function GapLine<P>(section: string, b: Bounded<P>, r: Reply): seq<Line> {
    if b.limited then [Gap(section, r.sinceEpoch, r.untilEpoch, POLL_LIMIT)] else []
  }

  function TransitionLines(ts: seq<Stamped<Transition>>): seq<Line> {
    if ts == [] then [] else TransitionLines(ts[..|ts| - 1]) + [TransitionLine(ts[|ts| - 1])]
  }

  function JobLines(js: seq<Stamped<JobTransition>>): seq<Line> {
    if js == [] then [] else JobLines(js[..|js| - 1]) + [JobLine(js[|js| - 1])]
  }

  /** One poll's output: gaps first, then the accepted edges. */
  function Output(c: Client, r: Reply): seq<Line> {
    GapLine("transitions", r.transitions, r) + GapLine("jobs", r.jobs, r)
    + TransitionLines(Accepted(c.seen, r.transitions.items, TransitionKey))
    + JobLines(Accepted(c.seenJobs, r.jobs.items, JobKey))
  }

  function Step(args: Args, c: Client, p: Poll): Client {
    if c.stopped then c
    else match p.answer
      case None => if c.first then c.(stopped := true) else c.(down := true)
      case Some(a) =>
        var since := p.now - Lookback(args.localSecs);
        Client(since,
               Pruned(c.seen + Pairs(a.reply.transitions.items, TransitionKey), since),
               Pruned(c.seenJobs + Pairs(a.reply.jobs.items, JobKey), since),
               c.out + Output(c, a.reply), false, false, false)
  }

  function RunOf(args: Args, now: int, polls: seq<Poll>): Client {
    if polls == [] then Start(args, now)
    else Step(args, RunOf(args, now, polls[..|polls| - 1]), polls[|polls| - 1])
  }

  lemma TransitionStep(seen: set<Pair>, items: seq<Stamped<Transition>>, i: nat)
    requires i < |items|
    ensures Pairs(items[..i + 1], TransitionKey) == Pairs(items[..i], TransitionKey) + {PairOf(items[i], TransitionKey)}
    ensures TransitionLines(Accepted(seen, items[..i + 1], TransitionKey))
         == TransitionLines(Accepted(seen, items[..i], TransitionKey))
            + (if PairOf(items[i], TransitionKey) in seen + Pairs(items[..i], TransitionKey) then []
                else [TransitionLine(items[i])])
  {
    var taken := Accepted(seen, items[..i], TransitionKey);
    assert items[..i + 1][..i] == items[..i];
    assert (taken + [items[i]])[..|taken|] == taken;
    assert taken + [] == taken;
  }

  lemma JobStep(seen: set<Pair>, items: seq<Stamped<JobTransition>>, i: nat)
    requires i < |items|
    ensures Pairs(items[..i + 1], JobKey) == Pairs(items[..i], JobKey) + {PairOf(items[i], JobKey)}
    ensures JobLines(Accepted(seen, items[..i + 1], JobKey))
         == JobLines(Accepted(seen, items[..i], JobKey))
            + (if PairOf(items[i], JobKey) in seen + Pairs(items[..i], JobKey) then [] else [JobLine(items[i])])
  {
    var taken := Accepted(seen, items[..i], JobKey);
    assert items[..i + 1][..i] == items[..i];
    assert (taken + [items[i]])[..|taken|] == taken;
    assert taken + [] == taken;
  }

  lemma Flatten<T>(a: seq<T>, b: seq<T>, c: seq<T>, d: seq<T>, e: seq<T>)
    ensures a + b + c + d + e == a + (b + c + d + e)
  {
  }

  // ---------------------------------------------------------- the client's code

  /** Emitted identities across the rolling window. */
  class Cursor {
    var seen: set<Pair>

    constructor ()
      ensures seen == {}
    {
      seen := {};
    }

    /** True if this event has not been emitted before; records it. */
    method Accept(ts: int, key: string) returns (isNew: bool)
      modifies this
      ensures isNew == ((ts, key) !in old(seen)) && seen == old(seen) + {(ts, key)}
    {
      isNew := (ts, key) !in seen;
      seen := seen + {(ts, key)};
    }

    method Prune(before: int)
      modifies this
      ensures seen == Pruned(old(seen), before)
    {
      seen := set p | p in seen && p.0 >= before;
    }
  }

  class Tailer {
    const args: Args
    const transitions: Cursor
    const jobs: Cursor
    var since: int
    var out: seq<Line>
    var first: bool
    var down: bool
    var stopped: bool

    ghost predicate Valid() {
      transitions != jobs
    }

    function State(): Client
      reads this, transitions, jobs
    {
      Client(since, transitions.seen, jobs.seen, out, first, down, stopped)
    }

    constructor (args: Args, now: int)
      ensures Valid() && fresh(transitions) && fresh(jobs) && this.args == args
      ensures State() == Start(args, now)
    {
      this.args := args;
      this.since := now - Max(Lookback(args.localSecs), args.backfill);
      this.transitions := new Cursor();
      this.jobs := new Cursor();
      this.out := [];
      this.first, this.down, this.stopped := true, false, false;
    }

    method EmitTransition(t: Stamped<Transition>) returns (shown: seq<Line>)
      requires Valid()
      modifies this`out, transitions
      ensures shown == if PairOf(t, TransitionKey) in old(transitions.seen) then [] else [TransitionLine(t)]
      ensures out == old(out) + shown && transitions.seen == old(transitions.seen) + {PairOf(t, TransitionKey)}
    {
      shown := [];
      var isNew := transitions.Accept(t.ts, TransitionKey(t.what));
      if isNew {
        shown := [TransitionLine(t)];
      }
      out := out + shown;
    }

    method EmitJob(j: Stamped<JobTransition>) returns (shown: seq<Line>)
      requires Valid()
      modifies this`out, jobs
      ensures shown == if PairOf(j, JobKey) in old(jobs.seen) then [] else [JobLine(j)]
      ensures out == old(out) + shown && jobs.seen == old(jobs.seen) + {PairOf(j, JobKey)}
    {
      shown := [];
      var isNew := jobs.Accept(j.ts, JobKey(j.what));
      if isNew {
        shown := [JobLine(j)];
      }
      out := out + shown;
    }

    method EmitTransitions(ts: seq<Stamped<Transition>>)
      requires Valid()
      modifies this`out, transitions
      ensures out == old(out) + TransitionLines(Accepted(old(transitions.seen), ts, TransitionKey))
      ensures transitions.seen == old(transitions.seen) + Pairs(ts, TransitionKey)
    {
      for i := 0 to |ts|
        invariant transitions.seen == old(transitions.seen) + Pairs(ts[..i], TransitionKey)
        invariant out == old(out) + TransitionLines(Accepted(old(transitions.seen), ts[..i], TransitionKey))
      {
        TransitionStep(old(transitions.seen), ts, i);
        var shown := EmitTransition(ts[i]);
        Regroup(old(out), TransitionLines(Accepted(old(transitions.seen), ts[..i], TransitionKey)), shown);
      }
      assert ts[..|ts|] == ts;
    }

    method EmitJobs(js: seq<Stamped<JobTransition>>)
      requires Valid()
      modifies this`out, jobs
      ensures out == old(out) + JobLines(Accepted(old(jobs.seen), js, JobKey))
      ensures jobs.seen == old(jobs.seen) + Pairs(js, JobKey)
    {
      for i := 0 to |js|
        invariant jobs.seen == old(jobs.seen) + Pairs(js[..i], JobKey)
        invariant out == old(out) + JobLines(Accepted(old(jobs.seen), js[..i], JobKey))
      {
        JobStep(old(jobs.seen), js, i);
        var shown := EmitJob(js[i]);
        Regroup(old(out), JobLines(Accepted(old(jobs.seen), js[..i], JobKey)), shown);
      }
      assert js[..|js|] == js;
    }

    method Emit(r: Reply)
      requires Valid()
      modifies this`out, transitions, jobs
      ensures out == old(out) + Output(old(State()), r)
      ensures transitions.seen == old(transitions.seen) + Pairs(r.transitions.items, TransitionKey)
      ensures jobs.seen == old(jobs.seen) + Pairs(r.jobs.items, JobKey)
    {
      ghost var c := State();
      ghost var g, h := GapLine("transitions", r.transitions, r), GapLine("jobs", r.jobs, r);
      ghost var t := TransitionLines(Accepted(c.seen, r.transitions.items, TransitionKey));
      ghost var j := JobLines(Accepted(c.seenJobs, r.jobs.items, JobKey));
      out := out + GapLine("transitions", r.transitions, r);
      out := out + GapLine("jobs", r.jobs, r);
      EmitTransitions(r.transitions.items);
      EmitJobs(r.jobs.items);
      Flatten(c.out, g, h, t, j);
    }

    /** One turn of the loop in `run`. */
    method Turn(p: Poll)
      requires Valid()
      modifies this, transitions, jobs
      ensures Valid() && State() == Step(args, old(State()), p)
    {
      if stopped {
        return;
      }
      match p.answer {
        case None =>
          if first {
            stopped := true;
          } else {
            down := true;
          }
        case Some(a) =>
          down := false;
          first := false;
          Emit(a.reply);
          since := p.now - Lookback(args.localSecs);
          transitions.Prune(since);
          jobs.Prune(since);
      }
    }
  }
}
