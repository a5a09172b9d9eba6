/** Sample tables: the newest reading as of an instant, and the edges `LAG` derives from them. */
module Readings {
  import opened Wrappers
  import opened Seqs

  /** One row of a sample table: `key` is what the queries partition by, `value` what they compare. */
  datatype Reading<K, V, X> = Reading(ts: int, key: K, value: V, info: X)

  /** A change of value between two consecutive readings of one key. */
  datatype Change<K, V, X> = Change(prev: Reading<K, V, X>, cur: Reading<K, V, X>)

  /** Timestamps are unique per key, so "the newest" and "the previous" name one row. */
  ghost predicate UniqueTs<K, V, X>(rows: seq<Reading<K, V, X>>) {
    forall i, j :: 0 <= i < j < |rows| && rows[i].key == rows[j].key ==> rows[i].ts != rows[j].ts
  }

  /** The row of `key` with the largest `ts` at or before `t`: a join on a `max(ts)` subquery. */
  function AsOf<K(==), V, X>(rows: seq<Reading<K, V, X>>, key: K, t: int): (r: Option<Reading<K, V, X>>)
    ensures r.Some? ==> r.value in rows && r.value.key == key && r.value.ts <= t
    ensures r.Some? ==> forall x :: x in rows && x.key == key && x.ts <= t ==> x.ts <= r.value.ts
    ensures r.None? ==> forall x :: x in rows && x.key == key ==> x.ts > t
  {
    if rows == [] then None
    else
      var best := AsOf(rows[1..], key, t);
      var x := rows[0];
      assert rows == [x] + rows[1..];
      if x.key == key && x.ts <= t && (best.None? || best.value.ts < x.ts) then Some(x) else best
  }

  /** `LAG(value) OVER (PARTITION BY key ORDER BY ts)`: with unique timestamps, the newest strictly
      earlier reading of the same key. */
  function Lag<K(==), V, X>(rows: seq<Reading<K, V, X>>, r: Reading<K, V, X>): Option<Reading<K, V, X>> {
    AsOf(rows, r.key, r.ts - 1)
  }

  /** The rows of `part` whose predecessor in `rows` had another value. */
  function ChangesIn<K(==), V(==), X>(rows: seq<Reading<K, V, X>>, part: seq<Reading<K, V, X>>)
    : seq<Change<K, V, X>>
  {
    if part == [] then []
    else
      var lag := Lag(rows, part[0]);
      (if lag.Some? && lag.value.value != part[0].value then [Change(lag.value, part[0])] else [])
      + ChangesIn(rows, part[1..])
  }

  /** Every edge of a table, in row order. */
  function Changes<K(==), V(==), X>(rows: seq<Reading<K, V, X>>): seq<Change<K, V, X>> {
    ChangesIn(rows, rows)
  }

  /** Whether an edge leaves a kept reading. */
  function Leaves<K, V, X>(keep: Reading<K, V, X> -> bool): Change<K, V, X> -> bool {
    (e: Change<K, V, X>) => keep(e.prev)
  }

  /** `ts >= since`. */
  function Since<K, V, X>(since: int): Reading<K, V, X> -> bool {
    (r: Reading<K, V, X>) => r.ts >= since
  }

  /** The readings the edges arrive at. */
  function Arrivals<K, V, X>(es: seq<Change<K, V, X>>): (r: seq<Reading<K, V, X>>)
    ensures |r| == |es| && forall i :: 0 <= i < |es| ==> r[i] == es[i].cur
  {
    seq(|es|, i requires 0 <= i < |es| => es[i].cur)
  }

  /** The value a consumer of edges believes `key` has at `t`, starting from its first reading. */
  function Replay<K(==), V(==), X>(rows: seq<Reading<K, V, X>>, baseline: V, key: K, t: int): V {
    var e := AsOf(Arrivals(Changes(rows)), key, t);
    if e.Some? then e.value.value else baseline
  }

  ghost predicate IsFirst<K, V, X>(rows: seq<Reading<K, V, X>>, r: Reading<K, V, X>) {
    r in rows && forall x :: x in rows && x.key == r.key ==> r.ts <= x.ts
  }

  // ------------------------------------------------------------------ lemmas

  /** With unique timestamps the newest row as of an instant is determined. */
  lemma AsOfIs<K, V, X>(rows: seq<Reading<K, V, X>>, key: K, t: int, r: Reading<K, V, X>)
    requires UniqueTs(rows) && r in rows && r.key == key && r.ts <= t
    requires forall x :: x in rows && x.key == key && x.ts <= t ==> x.ts <= r.ts
    ensures AsOf(rows, key, t) == Some(r)
  {
    SameRow(rows, r, AsOf(rows, key, t).value);
  }

  lemma SameRow<K, V, X>(rows: seq<Reading<K, V, X>>, a: Reading<K, V, X>, b: Reading<K, V, X>)
    requires UniqueTs(rows) && a in rows && b in rows && a.key == b.key && a.ts == b.ts
    ensures a == b
  {
    var i :| 0 <= i < |rows| && rows[i] == a;
    var j :| 0 <= j < |rows| && rows[j] == b;
  }

  lemma {:induction false} ChangesInIs<K, V, X>(
    rows: seq<Reading<K, V, X>>, part: seq<Reading<K, V, X>>, e: Change<K, V, X>)
    ensures e in ChangesIn(rows, part) <==>
            e.cur in part && Lag(rows, e.cur) == Some(e.prev) && e.prev.value != e.cur.value
  {
    if part != [] {
      ChangesInIs(rows, part[1..], e);
      assert part == [part[0]] + part[1..];
    }
  }

  /** Two consecutive readings of one key, with different values. */
  ghost predicate IsStep<K, V, X>(rows: seq<Reading<K, V, X>>, p: Reading<K, V, X>, r: Reading<K, V, X>) {
    && p in rows && r in rows && p.key == r.key && p.ts < r.ts && p.value != r.value
    && forall x :: x in rows && x.key == r.key ==> x.ts <= p.ts || r.ts <= x.ts
  }

  /** The edges of a table are its steps. */
  lemma EdgesAreSteps<K, V, X>(rows: seq<Reading<K, V, X>>, e: Change<K, V, X>)
    requires UniqueTs(rows)
    ensures e in Changes(rows) <==> IsStep(rows, e.prev, e.cur)
  {
    ChangesInIs(rows, rows, e);
    if IsStep(rows, e.prev, e.cur) {
      AsOfIs(rows, e.cur.key, e.cur.ts - 1, e.prev);
    }
  }

  /** A filter that, within a key, never drops a row once it has kept an earlier one: any time
      window, any filter on the key, and a filter on a label that is stable per key. */
  ghost predicate KeepsLater<K, V, X>(rows: seq<Reading<K, V, X>>, keep: Reading<K, V, X> -> bool) {
    forall a, b :: a in rows && b in rows && a.key == b.key && a.ts <= b.ts && keep(a) ==> keep(b)
  }

  lemma LagWhere<K, V, X>(rows: seq<Reading<K, V, X>>, keep: Reading<K, V, X> -> bool, r: Reading<K, V, X>)
    requires UniqueTs(rows) && KeepsLater(rows, keep)
    ensures Lag(Where(rows, keep), r) ==
            (if Lag(rows, r).Some? && keep(Lag(rows, r).value) then Lag(rows, r) else None)
  {
    var lag, cut := Lag(rows, r), Lag(Where(rows, keep), r);
    if lag.Some? && keep(lag.value) {
      assert lag.value in Where(rows, keep);
      SameRow(rows, lag.value, cut.value);
    }
  }

  /** Windowed edges against full history: deriving edges inside the window gives exactly the
      full-history edges whose predecessor lies in the window, in the same order. */
  lemma WindowedChanges<K, V, X>(rows: seq<Reading<K, V, X>>, keep: Reading<K, V, X> -> bool)
    requires UniqueTs(rows) && KeepsLater(rows, keep)
    ensures Changes(Where(rows, keep)) == Where(Changes(rows), Leaves(keep))
  {
    WindowedPart(rows, keep, rows);
  }

  lemma {:induction false} WindowedPart<K, V, X>(
    rows: seq<Reading<K, V, X>>, keep: Reading<K, V, X> -> bool, part: seq<Reading<K, V, X>>)
    requires UniqueTs(rows) && KeepsLater(rows, keep) && (forall x :: x in part ==> x in rows)
    ensures ChangesIn(Where(rows, keep), Where(part, keep))
         == Where(ChangesIn(rows, part), Leaves(keep))
  {
    if part != [] {
      var r := part[0];
      assert part == [r] + part[1..];
      WindowedPart(rows, keep, part[1..]);
      LagWhere(rows, keep, r);
      var lag := Lag(rows, r);
      var head := if lag.Some? && lag.value.value != r.value then [Change(lag.value, r)] else [];
      WhereConcat(head, ChangesIn(rows, part[1..]), Leaves(keep));
      if keep(r) {
        var kept := Where(part, keep);
        assert kept == [r] + Where(part[1..], keep) && kept[1..] == Where(part[1..], keep);
      } else {
        assert Where(part, keep) == Where(part[1..], keep);
        assert lag.Some? ==> !keep(lag.value);
      }
    }
  }

  /** Widening a window only adds edges. */
  lemma WideningAddsEdges<K, V, X>(
    rows: seq<Reading<K, V, X>>, narrow: int, wide: int, e: Change<K, V, X>)
    requires UniqueTs(rows) && wide <= narrow
    requires e in Changes(Where(rows, Since(narrow)))
    ensures e in Changes(Where(rows, Since(wide)))
  {
    WindowedChanges(rows, Since(narrow));
    WindowedChanges(rows, Since(wide));
  }

  /** A window start loses at most one edge per key: two edges of a key that both cross it are one. */
  lemma OneEdgeLostPerKey<K, V, X>(
    rows: seq<Reading<K, V, X>>, since: int, d: Change<K, V, X>, e: Change<K, V, X>)
    requires UniqueTs(rows) && d in Changes(rows) && e in Changes(rows) && d.cur.key == e.cur.key
    requires d.prev.ts < since <= d.cur.ts && e.prev.ts < since <= e.cur.ts
    ensures d == e
  {
    ChangesInIs(rows, rows, d);
    ChangesInIs(rows, rows, e);
    SameRow(rows, d.cur, e.cur);
  }

  lemma {:induction false} WhereUnique<K, V, X>(rows: seq<Reading<K, V, X>>, keep: Reading<K, V, X> -> bool)
    requires UniqueTs(rows)
    ensures UniqueTs(Where(rows, keep))
  {
    if rows != [] {
      var kept := Where(rows[1..], keep);
      WhereUnique(rows[1..], keep);
      forall i | 0 <= i < |kept| && kept[i].key == rows[0].key ensures kept[i].ts != rows[0].ts {
        assert kept[i] in rows[1..];
        var k :| 0 <= k < |rows[1..]| && rows[1..][k] == kept[i];
        assert rows[k + 1] == kept[i];
      }
    }
  }

  /** Two kept readings of one key with readings between them, all of them dropped. */
  ghost predicate Bridges<K, V, X>(
    rows: seq<Reading<K, V, X>>, keep: Reading<K, V, X> -> bool, p: Reading<K, V, X>, r: Reading<K, V, X>)
  {
    && p in rows && r in rows && p.key == r.key && p.ts < r.ts && keep(p) && keep(r)
    && (exists x :: x in rows && IsBetween(p, x, r))
    && forall x :: x in rows && IsBetween(p, x, r) ==> !keep(x)
  }

  predicate IsBetween<K(==), V, X>(p: Reading<K, V, X>, x: Reading<K, V, X>, r: Reading<K, V, X>) {
    x.key == r.key && p.ts < x.ts < r.ts
  }

  /** A step of the kept rows is a step of all of them, or a bridge over dropped ones. */
  lemma KeptStep<K, V, X>(
    rows: seq<Reading<K, V, X>>, keep: Reading<K, V, X> -> bool, p: Reading<K, V, X>, r: Reading<K, V, X>)
    ensures IsStep(Where(rows, keep), p, r) <==>
      p.value != r.value && (Bridges(rows, keep, p, r) || (IsStep(rows, p, r) && keep(p) && keep(r)))
  {
    var kept := Where(rows, keep);
    if IsStep(kept, p, r) {
      forall x | x in rows && IsBetween(p, x, r) ensures !keep(x) {
        assert keep(x) ==> x in kept;
      }
    }
    if Bridges(rows, keep, p, r) {
      forall x | x in kept && x.key == r.key ensures x.ts <= p.ts || r.ts <= x.ts {
        assert x in rows && keep(x);
        assert !IsBetween(p, x, r);
      }
    }
  }

  /** A filter invents no edge exactly when the readings it leaves on either side of a gap agree. */
  lemma FilterInventsExactly<K(!new), V(!new), X(!new)>(rows: seq<Reading<K, V, X>>, keep: Reading<K, V, X> -> bool)
    requires UniqueTs(rows)
    ensures (forall e :: e in Changes(Where(rows, keep)) ==> e in Changes(rows))
            <==> forall p, r :: Bridges(rows, keep, p, r) ==> p.value == r.value
  {
    WhereUnique(rows, keep);
    forall e
      ensures e in Changes(rows) <==> IsStep(rows, e.prev, e.cur)
      ensures e in Changes(Where(rows, keep)) <==> IsStep(Where(rows, keep), e.prev, e.cur)
    {
      EdgesAreSteps(rows, e);
      EdgesAreSteps(Where(rows, keep), e);
    }
    forall p, r
      ensures IsStep(Where(rows, keep), p, r) <==>
        p.value != r.value && (Bridges(rows, keep, p, r) || (IsStep(rows, p, r) && keep(p) && keep(r)))
    {
      KeptStep(rows, keep, p, r);
    }
    if forall e :: e in Changes(Where(rows, keep)) ==> e in Changes(rows) {
      forall p, r | Bridges(rows, keep, p, r) ensures p.value == r.value {
        assert !IsStep(rows, p, r);
        assert Change(p, r) !in Changes(rows);
      }
    }
  }


  /** A label filter on a renamed runner is not such a filter: it joins readings across the gap and
      reports an edge that never happened. */
  lemma RenameInventsAnEdge()
    returns (rows: seq<Reading<int, bool, string>>, keep: Reading<int, bool, string> -> bool,
             e: Change<int, bool, string>)
    ensures UniqueTs(rows) && (forall r :: r in rows ==> r.key == 7) && (forall r :: keep(r) <==> r.info == "a")
    ensures e in Changes(Where(rows, keep)) && e !in Changes(rows)
  {
    var x, y, z := Reading(1, 7, false, "a"), Reading(2, 7, true, "b"), Reading(3, 7, true, "a");
    rows := [x, y, z];
    keep := (r: Reading<int, bool, string>) => r.info == "a";
    e := Change(x, z);
    var kept := Where(rows, keep);
    WhereUnique(rows, keep);
    assert y !in kept;
    AsOfIs(kept, 7, 2, x);
    AsOfIs(rows, 7, 2, y);
    ChangesInIs(kept, kept, e);
    ChangesInIs(rows, rows, e);
  }

  lemma {:induction false} ArrivalsUnique<K, V, X>(rows: seq<Reading<K, V, X>>, part: seq<Reading<K, V, X>>)
    requires UniqueTs(part)
    ensures UniqueTs(Arrivals(ChangesIn(rows, part)))
  {
    if part != [] {
      var r, rest := part[0], ChangesIn(rows, part[1..]);
      ArrivalsUnique(rows, part[1..]);
      forall i | 0 <= i < |rest| && rest[i].cur.key == r.key ensures rest[i].cur.ts != r.ts {
        ChangesInIs(rows, part[1..], rest[i]);
        var k :| 0 <= k < |part[1..]| && part[1..][k] == rest[i].cur;
        assert part[k + 1] == rest[i].cur;
      }
      var ups := Arrivals(ChangesIn(rows, part));
      if |ups| > |rest| {
        assert ups == [r] + Arrivals(rest);
      } else {
        assert ups == Arrivals(rest);
      }
    }
  }

  /** Replaying the edges from a key's first reading gives back every sample. */
  lemma {:induction false} ReplayReproducesSamples<K, V, X>(
    rows: seq<Reading<K, V, X>>, first: Reading<K, V, X>, r: Reading<K, V, X>)
    requires UniqueTs(rows) && IsFirst(rows, first) && r in rows && r.key == first.key
    ensures Replay(rows, first.value, r.key, r.ts) == r.value
    decreases r.ts - first.ts
  {
    var ups := Arrivals(Changes(rows));
    ArrivalsUnique(rows, rows);
    forall x | x in ups
      ensures x in rows && Lag(rows, x).Some? && Lag(rows, x).value.value != x.value
    {
      var i :| 0 <= i < |ups| && ups[i] == x;
      ChangesInIs(rows, rows, Changes(rows)[i]);
    }
    var lag := Lag(rows, r);
    var e := AsOf(ups, r.key, r.ts);
    if lag.None? {
      SameRow(rows, first, r);
      assert e.None?;
    } else if lag.value.value != r.value {
      ChangesInIs(rows, rows, Change(lag.value, r));
      var i :| 0 <= i < |Changes(rows)| && Changes(rows)[i] == Change(lag.value, r);
      assert ups[i] == r;
      AsOfIs(ups, r.key, r.ts, r);
    } else {
      ReplayReproducesSamples(rows, first, lag.value);
      NoArrivalBetween(rows, ups, r);
    }
  }

  /** A reading that repeats its predecessor's value leaves the newest edge as it was. */
  lemma NoArrivalBetween<K, V, X>(
    rows: seq<Reading<K, V, X>>, ups: seq<Reading<K, V, X>>, r: Reading<K, V, X>)
    requires UniqueTs(rows) && UniqueTs(ups) && r in rows
    requires Lag(rows, r).Some? && Lag(rows, r).value.value == r.value
    requires forall x :: x in ups ==> x in rows && Lag(rows, x).Some? && Lag(rows, x).value.value != x.value
    ensures AsOf(ups, r.key, r.ts) == AsOf(ups, r.key, Lag(rows, r).value.ts)
  {
    var p := Lag(rows, r).value;
    var e := AsOf(ups, r.key, r.ts);
    if e.Some? {
      if e.value.ts == r.ts {
        SameRow(rows, e.value, r);
        assert false;
      }
      AsOfIs(ups, r.key, p.ts, e.value);
    }
  }

  /** Consecutive edges chain: an edge leaves the value the edge before it arrived at, and a key's
      first edge leaves the value of its first reading. */
  lemma EdgesChain<K, V, X>(rows: seq<Reading<K, V, X>>, first: Reading<K, V, X>, e: Change<K, V, X>)
    requires UniqueTs(rows) && e in Changes(rows) && IsFirst(rows, first) && first.key == e.cur.key
    ensures var before := AsOf(Arrivals(Changes(rows)), e.cur.key, e.cur.ts - 1);
            e.prev.value == if before.Some? then before.value.value else first.value
  {
    ChangesInIs(rows, rows, e);
    ReplayReproducesSamples(rows, first, e.prev);
    var ups := Arrivals(Changes(rows));
    ArrivalsUnique(rows, rows);
    var before := AsOf(ups, e.cur.key, e.cur.ts - 1);
    if before.Some? {
      var i :| 0 <= i < |ups| && ups[i] == before.value;
      ChangesInIs(rows, rows, Changes(rows)[i]);
      assert before.value in rows;
      AsOfIs(ups, e.cur.key, e.prev.ts, before.value);
    }
  }
}
