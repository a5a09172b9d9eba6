/** GitHub reconcile writes: samples, the online edge, per-org health and audit. */
module GithubWriter {
  import opened Wrappers
  import opened Decimals
  import opened Readings
  import opened EdgeState
  import opened Timeline

  datatype ErrorKind = Unauthorized | Forbidden | NotFound | Http(code: nat) | Transport | Decode

  datatype RunnerRow = RunnerRow(agent: Agent, name: string, online: bool, busy: bool)

  /** Rows exist only in `Fetched`. */
  datatype Outcome =
    | Fetched(org: string, rows: seq<RunnerRow>)
    | Refused(org: string, kind: ErrorKind)
    | Unconfigured(org: string)

  /** One org's outcome at one tick. */
  datatype Event = Event(ts: int, outcome: Outcome)

  datatype Health = Health(lastOk: Option<int>, lastTry: int, ok: bool, httpStatus: Option<int>,
                           errorKind: Option<string>, configured: bool)

  datatype Tables = Tables(samples: seq<ApiRow>, state: map<Agent, State<bool>>,
                           health: map<string, Health>, audit: seq<ReconcileRow>)

  const EMPTY := Tables([], map[], map[], [])

  function Label(k: ErrorKind): string {
    match k
    case Unauthorized => "http_401"
    case Forbidden => "http_403"
    case NotFound => "http_404"
    case Http(code) => "http_" + Digits(code)
    case Transport => "transport"
    case Decode => "decode"
  }

  function HttpStatus(k: ErrorKind): Option<int> {
    match k
    case Unauthorized => Some(401)
    case Forbidden => Some(403)
    case NotFound => Some(404)
    case Http(code) => Some(code)
    case Transport => None
    case Decode => None
  }

  function Sample(ts: int, r: RunnerRow): ApiRow {
    Reading(ts, r.agent, r.online, ApiInfo(r.name, r.busy))
  }

  function WriteRow(t: Tables, ts: int, r: RunnerRow): Tables {
    t.(samples := t.samples + [Sample(ts, r)], state := Upsert(t.state, r.agent, r.online, ts))
  }

  function WriteRows(t: Tables, ts: int, rows: seq<RunnerRow>): Tables {
    if rows == [] then t else WriteRow(WriteRows(t, ts, rows[..|rows| - 1]), ts, rows[|rows| - 1])
  }

  function HealthAfter(old_: Option<Health>, e: Event): Health {
    var kind := if e.outcome.Refused? then Some(e.outcome.kind) else None;
    Health(if e.outcome.Fetched? then Some(e.ts) else if old_.Some? then old_.value.lastOk else None,
           e.ts, e.outcome.Fetched?,
           if kind.Some? then HttpStatus(kind.value) else None,
           if kind.Some? then Some(Label(kind.value)) else None,
           !e.outcome.Unconfigured?)
  }

  function WriteHealth(t: Tables, e: Event): Tables {
    var org := e.outcome.org;
    var h := HealthAfter(if org in t.health then Some(t.health[org]) else None, e);
    var runners := if e.outcome.Fetched? then |e.outcome.rows| else 0;
    t.(health := t.health[org := h],
       audit := t.audit + [Reading(e.ts, org, h.ok, Audit(h.errorKind, h.httpStatus, runners))])
  }

  function WriteEvent(t: Tables, e: Event): Tables {
    WriteHealth(if e.outcome.Fetched? then WriteRows(t, e.ts, e.outcome.rows) else t, e)
  }

  /** The tables after a whole run of outcomes. */
  function WriteAll(t: Tables, es: seq<Event>): Tables {
    if es == [] then t else WriteEvent(WriteAll(t, es[..|es| - 1]), es[|es| - 1])
  }

  function Tick(ts: int, outcomes: seq<Outcome>): seq<Event> {
    Map(outcomes, (o: Outcome) => Event(ts, o))
  }

  class Writer {
    var samples: seq<ApiRow>
    var state: map<Agent, State<bool>>
    var health: map<string, Health>
    var audit: seq<ReconcileRow>

    function Contents(): Tables
      reads this
    {
      Tables(samples, state, health, audit)
    }

    /** One transaction: `commits` is whether SQLite committed it. */
    method WriteApiRunners(ts: int, outcomes: seq<Outcome>, commits: bool) returns (ok: bool)
      modifies this
      ensures ok == commits
      ensures Contents() == if ok then WriteAll(old(Contents()), Tick(ts, outcomes)) else old(Contents())
    {
      var t := Contents();
      ghost var es := Tick(ts, outcomes);
      for i := 0 to |outcomes|
        invariant t == WriteAll(old(Contents()), es[..i])
        invariant Contents() == old(Contents())
      {
        var outcome := outcomes[i];
        ghost var before := t;
        if outcome.Fetched? {
          for j := 0 to |outcome.rows|
            invariant t == WriteRows(before, ts, outcome.rows[..j])
          {
            var r := outcome.rows[j];
            t := t.(samples := t.samples + [Sample(ts, r)], state := Upsert(t.state, r.agent, r.online, ts));
            assert outcome.rows[..j + 1][..j] == outcome.rows[..j];
          }
          assert outcome.rows[..|outcome.rows|] == outcome.rows;
        }
        t := WriteHealth(t, Event(ts, outcome));
        assert es[..i + 1][..i] == es[..i];
      }
      assert es[..|outcomes|] == es;
      if commits {
        samples, state, health, audit := t.samples, t.state, t.health, t.audit;
      }
      return commits;
    }
  }

  // ------------------------------------------------------------------ lemmas

  lemma {:induction false} WriteAllConcat(t: Tables, a: seq<Event>, b: seq<Event>)
    ensures WriteAll(t, a + b) == WriteAll(WriteAll(t, a), b)
  {
    if b == [] {
      assert a + b == a;
    } else {
      assert (a + b)[..|a + b| - 1] == a + b[..|b| - 1];
      WriteAllConcat(t, a, b[..|b| - 1]);
    }
  }

  lemma {:induction false} RowsKeepSummary(t: Tables, ts: int, rows: seq<RunnerRow>)
    requires StateIsSummary(t.samples, t.state)
    ensures StateIsSummary(WriteRows(t, ts, rows).samples, WriteRows(t, ts, rows).state)
    ensures WriteRows(t, ts, rows).health == t.health && WriteRows(t, ts, rows).audit == t.audit
  {
    if rows != [] {
      var prev := WriteRows(t, ts, rows[..|rows| - 1]);
      RowsKeepSummary(t, ts, rows[..|rows| - 1]);
      UpsertKeepsSummary(prev.samples, prev.state, Sample(ts, rows[|rows| - 1]));
    }
  }

  /** `x` is the sample of row `r` fetched at `ts`. */
  predicate IsSampleOf(x: ApiRow, ts: int, r: RunnerRow) {
    x.ts == ts && x.key == r.agent && x.value == r.online && x.info.name == r.name && x.info.busy == r.busy
  }

  ghost predicate WasFetched(es: seq<Event>, x: ApiRow) {
    exists i :: 0 <= i < |es| && HasRow(es[i], x)
  }

  ghost predicate HasRow(e: Event, x: ApiRow) {
    e.outcome.Fetched? && exists r :: r in e.outcome.rows && IsSampleOf(x, e.ts, r)
  }

  lemma {:induction false} RowsAreSamples(t: Tables, ts: int, rows: seq<RunnerRow>, x: ApiRow)
    ensures x in WriteRows(t, ts, rows).samples <==> x in t.samples || exists r :: r in rows && IsSampleOf(x, ts, r)
  {
    if rows != [] {
      var front, last := rows[..|rows| - 1], rows[|rows| - 1];
      RowsAreSamples(t, ts, front, x);
      assert rows == front + [last];
      assert x == Sample(ts, last) <==> IsSampleOf(x, ts, last);
    }
  }

  /** The sample table holds every row of every fetched outcome, under its tick, and nothing else. */
  lemma {:induction false} SamplesAreEveryRow(es: seq<Event>, x: ApiRow)
    ensures x in WriteAll(EMPTY, es).samples <==> WasFetched(es, x)
  {
    if es != [] {
      var front, e := es[..|es| - 1], es[|es| - 1];
      SamplesAreEveryRow(front, x);
      if e.outcome.Fetched? {
        RowsAreSamples(WriteAll(EMPTY, front), e.ts, e.outcome.rows, x);
      }
      WasFetchedMore(es, x);
    }
  }

  /** Each row once. */
  function RowCount(es: seq<Event>): nat {
    if es == [] then 0
    else
      var o := es[|es| - 1].outcome;
      RowCount(es[..|es| - 1]) + if o.Fetched? then |o.rows| else 0
  }

  lemma {:induction false} SamplesAreAsMany(es: seq<Event>)
    ensures |WriteAll(EMPTY, es).samples| == RowCount(es)
  {
    if es != [] {
      var front, e := es[..|es| - 1], es[|es| - 1];
      SamplesAreAsMany(front);
      if e.outcome.Fetched? {
        RowsAddSamples(WriteAll(EMPTY, front), e.ts, e.outcome.rows);
      }
    }
  }

  lemma {:induction false} RowsAddSamples(t: Tables, ts: int, rows: seq<RunnerRow>)
    ensures |WriteRows(t, ts, rows).samples| == |t.samples| + |rows|
  {
    if rows != [] {
      RowsAddSamples(t, ts, rows[..|rows| - 1]);
    }
  }

  lemma WasFetchedMore(es: seq<Event>, x: ApiRow)
    requires es != []
    ensures WasFetched(es, x) <==> WasFetched(es[..|es| - 1], x) || HasRow(es[|es| - 1], x)
  {
    var front := es[..|es| - 1];
    if i :| 0 <= i < |front| && HasRow(front[i], x) {
      assert HasRow(es[i], x);
    }
    if i :| 0 <= i < |es| && HasRow(es[i], x) {
      assert i < |front| ==> HasRow(front[i], x);
    }
  }

  /** The audit has one row an outcome, in order: success, the rows fetched, or the cause. */
  lemma {:induction false} AuditIsEveryOutcome(es: seq<Event>)
    ensures var audit := WriteAll(EMPTY, es).audit;
            && |audit| == |es|
            && forall i :: 0 <= i < |es| ==> Audits(audit[i], es[i])
  {
    if es != [] {
      var front, e := es[..|es| - 1], es[|es| - 1];
      AuditIsEveryOutcome(front);
      if e.outcome.Refused? {
        LabelDescribes(e.outcome.kind);
      }
      if e.outcome.Fetched? {
        RowsHealth(WriteAll(EMPTY, front), e.ts, e.outcome.rows);
      }
    }
  }

  /** A kind's label and status: those with a status are labelled by it, in decimal; the others have none. */
  predicate Describes(kind: ErrorKind, name: Option<string>, status: Option<int>) {
    && name.Some?
    && (status.Some? <==> !kind.Transport? && !kind.Decode?)
    && (status.Some? ==> "http_" <= name.value && 0 <= status.value && NatValue(name.value[5..]) == status.value)
    && (match kind
        case Unauthorized => status == Some(401)
        case Forbidden => status == Some(403)
        case NotFound => status == Some(404)
        case Http(code) => status == Some(code)
        case Transport => name == Some("transport")
        case Decode => name == Some("decode"))
  }

  lemma LabelDescribes(kind: ErrorKind)
    ensures Describes(kind, Some(Label(kind)), HttpStatus(kind))
  {
    DigitsValue(401);
    DigitsValue(403);
    DigitsValue(404);
    if kind.Http? {
      DigitsValue(kind.code);
      assert Label(kind)[5..] == Digits(kind.code);
    } else if HttpStatus(kind).Some? {
      StatusDigits();
      assert Label(kind)[5..] == Digits(HttpStatus(kind).value);
    }
  }

  lemma StatusDigits()
    ensures Digits(401) == "401" && Digits(403) == "403" && Digits(404) == "404"
  {
    assert Digits(40) == Digits(4) + Digits(0);
  }

  /** The cause, if the outcome was refused, and none otherwise. */
  predicate IsCause(o: Outcome, name: Option<string>, status: Option<int>) {
    if o.Refused? then Describes(o.kind, name, status) else name.None? && status.None?
  }

  predicate Audits(a: ReconcileRow, e: Event) {
    && a.ts == e.ts && a.key == e.outcome.org && (a.value <==> e.outcome.Fetched?)
    && a.info.runners == (if e.outcome.Fetched? then |e.outcome.rows| else 0)
    && IsCause(e.outcome, a.info.errorKind, a.info.httpStatus)
  }

  /** After every run of reconcile ticks each `api_runner_state` row is its key's last online value,
      the start of that value's last run, and the last reading's timestamp. */
  lemma {:induction false} RunnerStateIsSummary(es: seq<Event>)
    ensures StateIsSummary(WriteAll(EMPTY, es).samples, WriteAll(EMPTY, es).state)
  {
    if es != [] {
      var prev, e := WriteAll(EMPTY, es[..|es| - 1]), es[|es| - 1];
      RunnerStateIsSummary(es[..|es| - 1]);
      if e.outcome.Fetched? {
        RowsKeepSummary(prev, e.ts, e.outcome.rows);
      }
    }
  }

  /** So `since_ts` dates the newest unbounded GitHub edge of the key, or its first reading. */
  lemma RunnerSinceIsNewestEdge(es: seq<Event>, key: Agent)
    requires Ascending(WriteAll(EMPTY, es).samples) && key in WriteAll(EMPTY, es).state
    ensures var t := WriteAll(EMPTY, es);
            var e := AsOf(Arrivals(Changes(t.samples)), key, t.state[key].lastSeen);
            HistoryOf(t.samples, key) != []
            && t.state[key].since == (if e.Some? then e.value.ts else HistoryOf(t.samples, key)[0].ts)
  {
    RunnerStateIsSummary(es);
    SinceIsNewestEdge(WriteAll(EMPTY, es).samples, WriteAll(EMPTY, es).state, key);
  }

  /** An outcome without rows leaves every runner row and sample alone, and still records health. */
  lemma RefusalTouchesNoRunner(t: Tables, e: Event)
    requires !e.outcome.Fetched?
    ensures WriteEvent(t, e).samples == t.samples && WriteEvent(t, e).state == t.state
    ensures var h := WriteEvent(t, e).health;
            && h.Keys == t.health.Keys + {e.outcome.org}
            && h[e.outcome.org].lastTry == e.ts && !h[e.outcome.org].ok
            && h[e.outcome.org].lastOk == (if e.outcome.org in t.health then t.health[e.outcome.org].lastOk else None)
            && (forall o :: o in t.health && o != e.outcome.org ==> h[o] == t.health[o])
    ensures |WriteEvent(t, e).audit| == |t.audit| + 1
  {
  }

  predicate Concerns(e: Event, org: string, okOnly: bool) {
    e.outcome.org == org && (okOnly ==> e.outcome.Fetched?)
  }

  /** The last event of `org`, counting successes only if `okOnly`; -1 if there is none. */
  function Latest(es: seq<Event>, org: string, okOnly: bool): (i: int)
    ensures -1 <= i < |es|
    ensures i >= 0 ==> Concerns(es[i], org, okOnly)
    ensures forall j :: i < j < |es| ==> !Concerns(es[j], org, okOnly)
  {
    if es == [] then -1
    else if Concerns(es[|es| - 1], org, okOnly) then |es| - 1
    else Latest(es[..|es| - 1], org, okOnly)
  }

  /** After every run, `last_try_ts` and `ok` are the org's latest outcome and `last_ok_ts` is the
      timestamp of its latest success, however many failures followed. */
  lemma {:induction false} HealthTracksOutcomes(es: seq<Event>, org: string)
    ensures var h, last, good := WriteAll(EMPTY, es).health, Latest(es, org, false), Latest(es, org, true);
            && (org in h <==> last >= 0)
            && (org in h ==>
                  && h[org].lastTry == es[last].ts
                  && (h[org].ok <==> es[last].outcome.Fetched?)
                  && (h[org].configured <==> !es[last].outcome.Unconfigured?)
                  && IsCause(es[last].outcome, h[org].errorKind, h[org].httpStatus)
                  && h[org].lastOk == (if good >= 0 then Some(es[good].ts) else None))
  {
    if es != [] {
      var front, e := es[..|es| - 1], es[|es| - 1];
      var prev := WriteAll(EMPTY, front);
      HealthTracksOutcomes(front, org);
      if e.outcome.Refused? {
        LabelDescribes(e.outcome.kind);
      }
      if e.outcome.Fetched? {
        RowsHealth(prev, e.ts, e.outcome.rows);
      }
      if Latest(front, org, true) >= 0 {
        assert Concerns(front[Latest(front, org, true)], org, false);
      }
    }
  }

  lemma {:induction false} RowsHealth(t: Tables, ts: int, rows: seq<RunnerRow>)
    ensures WriteRows(t, ts, rows).health == t.health && WriteRows(t, ts, rows).audit == t.audit
  {
    if rows != [] {
      RowsHealth(t, ts, rows[..|rows| - 1]);
    }
  }

  // ----------------------------------------------------------------- pruning

  /** What the writer thread does to these tables: a committed tick, or a prune that leaves some
      sample and audit rows. */
  datatype Step = Write(es: seq<Event>) | Prune(kept: seq<ApiRow>, keptAudit: seq<ReconcileRow>)

  function RunSteps(t: Tables, steps: seq<Step>): Tables {
    if steps == [] then t
    else
      var prev := RunSteps(t, steps[..|steps| - 1]);
      match steps[|steps| - 1]
      case Write(es) => WriteAll(prev, es)
      case Prune(kept, keptAudit) => prev.(samples := kept, audit := keptAudit)
  }

  function Written(steps: seq<Step>): seq<Event> {
    if steps == [] then []
    else Written(steps[..|steps| - 1]) + (if steps[|steps| - 1].Write? then steps[|steps| - 1].es else [])
  }

  lemma {:induction false} RowsIgnoreSamples(s: Tables, t: Tables, ts: int, rows: seq<RunnerRow>)
    requires s.state == t.state && s.health == t.health
    ensures WriteRows(s, ts, rows).state == WriteRows(t, ts, rows).state
    ensures WriteRows(s, ts, rows).health == WriteRows(t, ts, rows).health
  {
    if rows != [] {
      RowsIgnoreSamples(s, t, ts, rows[..|rows| - 1]);
    }
  }

  lemma {:induction false} StateIgnoresSamples(s: Tables, t: Tables, es: seq<Event>)
    requires s.state == t.state && s.health == t.health
    ensures WriteAll(s, es).state == WriteAll(t, es).state && WriteAll(s, es).health == WriteAll(t, es).health
  {
    if es != [] {
      StateIgnoresSamples(s, t, es[..|es| - 1]);
      var e := es[|es| - 1];
      if e.outcome.Fetched? {
        RowsIgnoreSamples(WriteAll(s, es[..|es| - 1]), WriteAll(t, es[..|es| - 1]), e.ts, e.outcome.rows);
      }
    }
  }

  /** Pruning disturbs none of the incremental state: over every interleaving of ticks and prunes the
      state and health tables are those of the whole unpruned history. */
  lemma {:induction false} PruningKeepsState(steps: seq<Step>)
    ensures RunSteps(EMPTY, steps).state == WriteAll(EMPTY, Written(steps)).state
    ensures RunSteps(EMPTY, steps).health == WriteAll(EMPTY, Written(steps)).health
    ensures StateIsSummary(WriteAll(EMPTY, Written(steps)).samples, RunSteps(EMPTY, steps).state)
  {
    RunnerStateIsSummary(Written(steps));
    if steps != [] {
      var front, last := steps[..|steps| - 1], steps[|steps| - 1];
      PruningKeepsState(front);
      if last.Write? {
        WriteAllConcat(EMPTY, Written(front), last.es);
        StateIgnoresSamples(RunSteps(EMPTY, front), WriteAll(EMPTY, Written(front)), last.es);
      } else {
        assert Written(steps) == Written(front);
      }
    }
  }
}
