/** Three reads of GitHub's view that must agree on freshness: occupancy per tick, timeline samples
    and the newest reading per runner. */
module Freshness {
  import opened Wrappers
  import opened Seqs
  import opened Readings
  import opened Bounded
  import opened Timeline

  /** `known` is the denominator; `None` is a gap in the chart, not "0 online". */
  datatype GhCount = GhCount(online: nat, known: nat)

  datatype BusyPoint = BusyPoint(busy: nat, online: nat, github: Option<GhCount>)

  function NewGhCount(online: nat, known: nat): Option<GhCount> {
    if known > 0 then Some(GhCount(online, known)) else None
  }

  const U32_LIMIT := 0x1_0000_0000

  /** Rust's `as u32`. */
  function AsU32(n: nat): nat {
    n % U32_LIMIT
  }

  /** The join of the occupancy query: the age limit filters in SQL, as a signed integer. */
  function JoinedReading(api: seq<ApiRow>, r: LocalRow, maxAge: nat): Option<ApiRow>
    requires maxAge <= U64_MAX
  {
    AsOf(Where(api, Since(r.ts - AsI64(maxAge))), r.key, r.ts)
  }

  function Count<T>(s: seq<T>, p: T -> bool): nat {
    if s == [] then 0 else (if p(s[0]) then 1 else 0) + Count(s[1..], p)
  }

  function OnTick(t: int): LocalRow -> bool {
    (r: LocalRow) => r.ts == t
  }

  function TickRows(local: seq<LocalRow>, t: int): seq<LocalRow> {
    Where(local, OnTick(t))
  }

  function Known(api: seq<ApiRow>, maxAge: nat): LocalRow -> bool
    requires maxAge <= U64_MAX
  {
    (r: LocalRow) => JoinedReading(api, r, maxAge).Some?
  }

  function KnownOnline(api: seq<ApiRow>, maxAge: nat): LocalRow -> bool
    requires maxAge <= U64_MAX
  {
    (r: LocalRow) => JoinedReading(api, r, maxAge).Some? && JoinedReading(api, r, maxAge).value.value
  }

  function IsBusy(): LocalRow -> bool {
    (r: LocalRow) => r.value == Busy
  }

  function IsOnline(): LocalRow -> bool {
    (r: LocalRow) => r.value != Offline
  }

  /** One group of the occupancy query. */
  function PointAt(local: seq<LocalRow>, api: seq<ApiRow>, maxAge: nat, t: int): BusyPoint
    requires maxAge <= U64_MAX
  {
    var rows := TickRows(local, t);
    BusyPoint(AsU32(Count(rows, IsBusy())), AsU32(Count(rows, IsOnline())),
              NewGhCount(AsU32(Count(rows, KnownOnline(api, maxAge))), AsU32(Count(rows, Known(api, maxAge)))))
  }

  /** `GROUP BY ts`. */
  function Ticks(local: seq<LocalRow>): (ts: seq<int>)
    ensures forall r :: r in local ==> r.ts in ts
    ensures forall t :: t in ts ==> exists r :: r in local && r.ts == t
    ensures forall i, j :: 0 <= i < j < |ts| ==> ts[i] != ts[j]
  {
    if local == [] then []
    else
      assert local == [local[0]] + local[1..];
      var rest := Ticks(local[1..]);
      assert local[0] in local;
      if local[0].ts in rest then rest else [local[0].ts] + rest
  }

  function Points(local: seq<LocalRow>, api: seq<ApiRow>, maxAge: nat): seq<Stamped<BusyPoint>>
    requires maxAge <= U64_MAX
  {
    Map(Ticks(local), (t: int) => Stamped(t, PointAt(local, api, maxAge, t)))
  }

  /** Occupancy of the newest `limit` ticks, oldest first; a limit past the signed range is none. */
  method BusySeries(local: seq<LocalRow>, api: seq<ApiRow>, limit: nat, maxAge: nat)
    returns (out: seq<Stamped<BusyPoint>>)
    requires limit <= U64_MAX && maxAge <= U64_MAX
    ensures OldestFirst(out)
    ensures |out| == if limit < I64_LIMIT then Min(limit, |Ticks(local)|) else |Ticks(local)|
    ensures KeepsNewest(Points(local, api, maxAge), out)
    ensures forall p :: p in out ==> p.what == PointAt(local, api, maxAge, p.ts)
  {
    var all := Points(local, api, maxAge);
    out := OrderByTsDescLimit(all, AsI64(limit));
    ReversedCut(all, AsI64(limit), out);
    out := Reverse(out);
    AreOfTheirTicks(local, api, maxAge, out);
  }

  lemma ReversedCut<P(!new)>(all: seq<Stamped<P>>, n: int, cut: seq<Stamped<P>>)
    requires IsCut(all, n, cut)
    ensures OldestFirst(Reverse(cut)) && KeepsNewest(all, Reverse(cut)) && multiset(Reverse(cut)) <= multiset(all)
  {
    ReverseMultiset(cut);
    forall p | p in Reverse(cut) ensures p in cut {
      assert p in multiset(Reverse(cut));
    }
  }

  lemma AreOfTheirTicks(local: seq<LocalRow>, api: seq<ApiRow>, maxAge: nat, out: seq<Stamped<BusyPoint>>)
    requires maxAge <= U64_MAX && multiset(out) <= multiset(Points(local, api, maxAge))
    ensures forall p :: p in out ==> p.what == PointAt(local, api, maxAge, p.ts)
  {
    forall p | p in out ensures p.what == PointAt(local, api, maxAge, p.ts) {
      assert p in multiset(out);
      var i :| 0 <= i < |Ticks(local)| && Points(local, api, maxAge)[i] == p;
    }
  }

  /** The views `Fresh`, and the ones `Fresh` and online. */
  function IsFresh(api: seq<ApiRow>, maxAge: nat): LocalRow -> bool {
    (r: LocalRow) => ViewAt(api, r, maxAge).Fresh?
  }

  function IsFreshOnline(api: seq<ApiRow>, maxAge: nat): LocalRow -> bool {
    (r: LocalRow) => ViewAt(api, r, maxAge).Fresh? && ViewAt(api, r, maxAge).online
  }

  /** Newest reading per runner, classified by its age now. */
  function LatestView(api: seq<ApiRow>, key: Agent, now: int, maxAge: nat): Option<GhView> {
    match NewestOf(api, key)
    case Some(a) => Some(Observed(a.value, a.info.busy, now - a.ts, maxAge))
    case None => None
  }

  /** The row joined on `max(ts)` grouped by runner. */
  function NewestOf(api: seq<ApiRow>, key: Agent): (r: Option<ApiRow>)
    ensures r.Some? ==> r.value in api && r.value.key == key
    ensures forall x :: x in api && x.key == key ==> r.Some? && x.ts <= r.value.ts
  {
    if api == [] then None
    else
      assert api == [api[0]] + api[1..];
      var best := NewestOf(api[1..], key);
      if api[0].key == key && (best.None? || best.value.ts < api[0].ts) then Some(api[0]) else best
  }

  // ------------------------------------------------------------------ lemmas

  /** Filtering by age before taking the newest finds the newest reading exactly when it is young
      enough, since every other reading is older still. */
  lemma JoinedIsYoungNewest(api: seq<ApiRow>, r: LocalRow, maxAge: nat)
    requires UniqueTs(api) && maxAge <= U64_MAX
    ensures var a := AsOf(api, r.key, r.ts);
            JoinedReading(api, r, maxAge) ==
            if a.Some? && r.ts - a.value.ts <= AsI64(maxAge) then a else None
  {
    YoungNewest(api, r.key, r.ts, r.ts - AsI64(maxAge));
  }

  lemma YoungNewest<K, V, X>(rows: seq<Reading<K, V, X>>, key: K, t: int, since: int)
    requires UniqueTs(rows)
    ensures var a := AsOf(rows, key, t);
            AsOf(Where(rows, Since(since)), key, t) == if a.Some? && a.value.ts >= since then a else None
  {
    var a, young := AsOf(rows, key, t), Where(rows, Since(since));
    WhereUnique(rows, Since(since));
    if a.Some? && a.value.ts >= since {
      assert a.value in young;
      AsOfIs(young, key, t, a.value);
    }
  }

  /** Row by row the two queries agree exactly when the age limit survives the cast to `i64`, or there is
      no reading at or before the tick as young as the limit. */
  lemma RowsAgree(api: seq<ApiRow>, r: LocalRow, maxAge: nat)
    requires UniqueTs(api) && maxAge <= U64_MAX
    ensures (JoinedReading(api, r, maxAge).Some? <==> ViewAt(api, r, maxAge).Fresh?)
            <==> maxAge < I64_LIMIT || AsOf(api, r.key, r.ts).None?
                 || r.ts - AsOf(api, r.key, r.ts).value.ts > maxAge
    ensures JoinedReading(api, r, maxAge).Some? ==>
            ViewAt(api, r, maxAge).Fresh?
            && ViewAt(api, r, maxAge).online == JoinedReading(api, r, maxAge).value.value
  {
    JoinedIsYoungNewest(api, r, maxAge);
  }

  lemma {:induction false} CountAgrees<T>(s: seq<T>, p: T -> bool, q: T -> bool)
    requires forall x :: x in s ==> p(x) == q(x)
    ensures Count(s, p) == Count(s, q)
  {
    if s != [] {
      assert s == [s[0]] + s[1..];
      CountAgrees(s[1..], p, q);
    }
  }

  lemma {:induction false} CountIsBounded<T>(s: seq<T>, p: T -> bool)
    ensures Count(s, p) <= |s|
  {
    if s != [] {
      CountIsBounded(s[1..], p);
    }
  }

  lemma CountsAgree(rows: seq<LocalRow>, api: seq<ApiRow>, maxAge: nat)
    requires UniqueTs(api) && maxAge < I64_LIMIT
    ensures Count(rows, Known(api, maxAge)) == Count(rows, IsFresh(api, maxAge)) <= |rows|
    ensures Count(rows, KnownOnline(api, maxAge)) == Count(rows, IsFreshOnline(api, maxAge)) <= |rows|
  {
    forall r | r in rows
      ensures Known(api, maxAge)(r) == IsFresh(api, maxAge)(r)
      ensures KnownOnline(api, maxAge)(r) == IsFreshOnline(api, maxAge)(r)
    {
      RowsAgree(api, r, maxAge);
    }
    CountAgrees(rows, Known(api, maxAge), IsFresh(api, maxAge));
    CountAgrees(rows, KnownOnline(api, maxAge), IsFreshOnline(api, maxAge));
    CountIsBounded(rows, IsFresh(api, maxAge));
    CountIsBounded(rows, IsFreshOnline(api, maxAge));
  }

  /** At every tick the chart's `known` counts the runners the timeline calls fresh, and its `online`
      those it calls fresh and online, in 32 bits; a tick with no fresh view is a gap. */
  lemma OccupancyMatchesTimeline(local: seq<LocalRow>, api: seq<ApiRow>, maxAge: nat, t: int)
    requires UniqueTs(api) && maxAge < I64_LIMIT
    ensures var rows := TickRows(local, t);
            var online, known := Count(rows, IsFreshOnline(api, maxAge)), Count(rows, IsFresh(api, maxAge));
            && PointAt(local, api, maxAge, t).github == NewGhCount(AsU32(online), AsU32(known))
            && (|rows| < U32_LIMIT ==> AsU32(online) == online && AsU32(known) == known)
  {
    var rows := TickRows(local, t);
    CountsAgree(rows, api, maxAge);
    PointIs(local, api, maxAge, t);
    SmallFits(Count(rows, IsFreshOnline(api, maxAge)), |rows|);
    SmallFits(Count(rows, IsFresh(api, maxAge)), |rows|);
  }

  // ------------------------------------------------------- what a point counts

  ghost function Places<T>(s: seq<T>, p: T -> bool): set<nat> {
    set i: nat | i < |s| && p(s[i])
  }

  lemma {:induction false} CountIsPlaces<T>(s: seq<T>, p: T -> bool)
    ensures Count(s, p) == |Places(s, p)|
  {
    if s != [] {
      var last := |s| - 1;
      CountConcat(s[..last], [s[last]], p);
      CountIsPlaces(s[..last], p);
      assert s == s[..last] + [s[last]] && [s[last]][1..] == [];
      assert Count([s[last]][1..], p) == 0;
      assert last !in Places(s[..last], p);
      assert Places(s, p) == Places(s[..last], p) + if p(s[last]) then {last} else {};
    }
  }

  lemma {:induction false} CountConcat<T>(a: seq<T>, b: seq<T>, p: T -> bool)
    ensures Count(a + b, p) == Count(a, p) + Count(b, p)
  {
    if a == [] {
      assert a + b == b;
    } else {
      assert (a + b)[1..] == a[1..] + b;
      CountConcat(a[1..], b, p);
    }
  }

  lemma {:induction false} CountWhere<T>(s: seq<T>, keep: T -> bool, p: T -> bool, both: T -> bool)
    requires forall x :: both(x) <==> keep(x) && p(x)
    ensures Count(Where(s, keep), p) == Count(s, both)
  {
    if s != [] {
      CountWhere(s[1..], keep, p, both);
      CountConcat(if keep(s[0]) then [s[0]] else [], Where(s[1..], keep), p);
      assert [s[0]][1..] == [];
      assert Count([s[0]][1..], p) == 0;
    }
  }

  /** The places of the timeline's samples at tick `t` that meet `p`. */
  ghost function At(xs: seq<Stamped<SamplePoint>>, t: int, p: SamplePoint -> bool): set<nat> {
    set i: nat | i < |xs| && xs[i].ts == t && p(xs[i].what)
  }

  /** A query that asks for everything from `t` or earlier. */
  predicate IsWide(q: Query, t: int) {
    q.org.None? && q.runner.None? && q.since <= t
  }

  lemma TickIsPlaces(s: Store, q: Query, maxAge: nat, t: int, p: LocalRow -> bool, of: SamplePoint -> bool)
    requires IsWide(q, t) && forall r :: p(r) <==> of(SampleAt(s.api, maxAge)(r).what)
    ensures Count(TickRows(s.local, t), p) == |At(Samples(s, q, maxAge), t, of)|
  {
    var both := (r: LocalRow) => r.ts == t && p(r);
    var rows, xs := Where(s.local, LocalWindow(q)), Samples(s, q, maxAge);
    CountWhere(s.local, OnTick(t), p, both);
    CountWhere(s.local, LocalWindow(q), both, both);
    CountIsPlaces(rows, both);
    SamePlaces(rows, xs, t, both, of);
  }

  lemma SamePlaces(rows: seq<LocalRow>, xs: seq<Stamped<SamplePoint>>, t: int, p: LocalRow -> bool,
                   of: SamplePoint -> bool)
    requires |rows| == |xs| && forall i :: 0 <= i < |rows| ==> (p(rows[i]) <==> xs[i].ts == t && of(xs[i].what))
    ensures Places(rows, p) == At(xs, t, of)
  {
  }

  /** At every tick the chart counts the timeline's samples of that tick: as busy those busy, as online those not
      offline; of GitHub's, as known those fresh, as online those fresh and online. Each in 32 bits. */
  lemma PointCountsSamples(s: Store, q: Query, maxAge: nat, t: int)
    requires UniqueTs(s.api) && maxAge < I64_LIMIT && IsWide(q, t)
    ensures var xs, point := Samples(s, q, maxAge), PointAt(s.local, s.api, maxAge, t);
            var known := |At(xs, t, (x: SamplePoint) => x.github.Fresh?)| % 0x1_0000_0000;
            var online := |At(xs, t, (x: SamplePoint) => x.github.Fresh? && x.github.online)| % 0x1_0000_0000;
            && point.busy == |At(xs, t, (x: SamplePoint) => x.liveness == Busy)| % 0x1_0000_0000
            && point.online == |At(xs, t, (x: SamplePoint) => x.liveness != Offline)| % 0x1_0000_0000
            && point.github == if known > 0 then Some(GhCount(online, known)) else None
  {
    TickIsPlaces(s, q, maxAge, t, IsBusy(), (x: SamplePoint) => x.liveness == Busy);
    TickIsPlaces(s, q, maxAge, t, IsOnline(), (x: SamplePoint) => x.liveness != Offline);
    TickIsPlaces(s, q, maxAge, t, IsFresh(s.api, maxAge), (x: SamplePoint) => x.github.Fresh?);
    TickIsPlaces(s, q, maxAge, t, IsFreshOnline(s.api, maxAge),
      (x: SamplePoint) => x.github.Fresh? && x.github.online);
    OccupancyMatchesTimeline(s.local, s.api, maxAge, t);
  }

  /** So no more are busy than online. */
  lemma BusyAreOnline(local: seq<LocalRow>, api: seq<ApiRow>, maxAge: nat, t: int)
    requires maxAge <= U64_MAX && |TickRows(local, t)| < 0x1_0000_0000
    ensures var point := PointAt(local, api, maxAge, t); point.busy <= point.online <= |TickRows(local, t)|
  {
    var rows := TickRows(local, t);
    PointIs(local, api, maxAge, t);
    CountImplies(rows, IsBusy(), IsOnline());
    CountIsBounded(rows, IsOnline());
    SmallFits(Count(rows, IsBusy()), |rows|);
    SmallFits(Count(rows, IsOnline()), |rows|);
  }

  lemma {:induction false} CountImplies<T>(s: seq<T>, p: T -> bool, q: T -> bool)
    requires forall x :: p(x) ==> q(x)
    ensures Count(s, p) <= Count(s, q)
  {
    if s != [] {
      CountImplies(s[1..], p, q);
    }
  }

  lemma PointIs(local: seq<LocalRow>, api: seq<ApiRow>, maxAge: nat, t: int)
    requires maxAge <= U64_MAX
    ensures var rows := TickRows(local, t);
            PointAt(local, api, maxAge, t) ==
            BusyPoint(AsU32(Count(rows, IsBusy())), AsU32(Count(rows, IsOnline())),
              NewGhCount(AsU32(Count(rows, KnownOnline(api, maxAge))), AsU32(Count(rows, Known(api, maxAge)))))
  {
  }

  lemma SmallFits(n: nat, size: nat)
    requires n <= size
    ensures size < U32_LIMIT ==> AsU32(n) == n
  {
  }

  /** Past `i64::MAX` the cast turns the limit negative and every tick becomes a gap, whatever the
      store holds. */
  lemma HugeMaxAgeBlanksTheChart(local: seq<LocalRow>, api: seq<ApiRow>, maxAge: nat, t: int)
    requires UniqueTs(api) && I64_LIMIT <= maxAge <= U64_MAX
    ensures PointAt(local, api, maxAge, t).github == None
  {
    var rows := TickRows(local, t);
    forall r | r in rows ensures !Known(api, maxAge)(r) {
      JoinedIsYoungNewest(api, r, maxAge);
    }
    NoneCounted(rows, Known(api, maxAge));
  }

  lemma {:induction false} NoneCounted<T>(s: seq<T>, p: T -> bool)
    requires forall x :: x in s ==> !p(x)
    ensures Count(s, p) == 0
  {
    if s != [] {
      assert s == [s[0]] + s[1..];
      NoneCounted(s[1..], p);
    }
  }

  /** The newest reading per runner is the as-of view at `now`, unless a reading lies in the future;
      a future reading counts as age zero there while the as-of view skips it. */
  lemma LatestIsAsOfNow(api: seq<ApiRow>, r: LocalRow, maxAge: nat)
    requires UniqueTs(api) && NewestOf(api, r.key).Some?
    ensures NewestOf(api, r.key).value.ts <= r.ts
            ==> LatestView(api, r.key, r.ts, maxAge) == Some(ViewAt(api, r, maxAge))
    ensures NewestOf(api, r.key).value.ts > r.ts
            ==> LatestView(api, r.key, r.ts, maxAge)
                == Some(Fresh(NewestOf(api, r.key).value.value, NewestOf(api, r.key).value.info.busy, 0))
  {
    var a := NewestOf(api, r.key).value;
    if a.ts <= r.ts {
      AsOfIs(api, r.key, r.ts, a);
    }
  }
}
