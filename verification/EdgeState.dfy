/** The incremental state tables: one row per key, upserted once per sample, against the whole
    sample history. */
module EdgeState {
  import opened Wrappers
  import opened Seqs
  import opened Readings

  /** A `runner_state` or `api_runner_state` row. */
  datatype State<V> = State(value: V, since: int, lastSeen: int)

  /** `since_ts` moves only when the value changes. */
  function Upsert<K, V(==)>(m: map<K, State<V>>, key: K, value: V, ts: int): map<K, State<V>> {
    m[key := State(value, if key in m && m[key].value == value then m[key].since else ts, ts)]
  }

  function OfKey<K(==), V, X>(key: K): Reading<K, V, X> -> bool {
    (r: Reading<K, V, X>) => r.key == key
  }

  /** One key's samples, in the order they were written. */
  function HistoryOf<K(==), V, X>(rows: seq<Reading<K, V, X>>, key: K): seq<Reading<K, V, X>> {
    Where(rows, OfKey(key))
  }

  /** `h[i..]` is the longest constant run at the end of `h`. */
  ghost predicate IsLastRun<K, V, X>(h: seq<Reading<K, V, X>>, i: int) {
    && 0 <= i < |h|
    && (forall j :: i <= j < |h| ==> h[j].value == h[|h| - 1].value)
    && (i > 0 ==> h[i - 1].value != h[|h| - 1].value)
  }

  /** `st` is the last value, when its run began, and when it was last seen. */
  ghost predicate Summarises<K, V, X>(h: seq<Reading<K, V, X>>, st: State<V>) {
    exists i :: IsLastRun(h, i) && st == State(h[|h| - 1].value, h[i].ts, h[|h| - 1].ts)
  }

  /** A state table agrees with a full history, key by key. */
  ghost predicate StateIsSummary<K(!new), V, X>(rows: seq<Reading<K, V, X>>, m: map<K, State<V>>) {
    && (forall k :: k in m <==> HistoryOf(rows, k) != [])
    && (forall k :: k in m ==> Summarises(HistoryOf(rows, k), m[k]))
  }

  /** Samples of one key are written in time order. */
  ghost predicate Ascending<K, V, X>(rows: seq<Reading<K, V, X>>) {
    forall i, j :: 0 <= i < j < |rows| && rows[i].key == rows[j].key ==> rows[i].ts < rows[j].ts
  }

  lemma HistoryAppend<K, V, X>(rows: seq<Reading<K, V, X>>, r: Reading<K, V, X>, key: K)
    ensures HistoryOf(rows + [r], key) == HistoryOf(rows, key) + (if r.key == key then [r] else [])
  {
    WhereConcat(rows, [r], OfKey(key));
  }

  /** One upsert beside one insert keeps the state table a summary of the history. */
  lemma UpsertKeepsSummary<K(!new), V, X>(rows: seq<Reading<K, V, X>>, m: map<K, State<V>>, r: Reading<K, V, X>)
    requires StateIsSummary(rows, m)
    ensures StateIsSummary(rows + [r], Upsert(m, r.key, r.value, r.ts))
  {
    var m' := Upsert(m, r.key, r.value, r.ts);
    forall k ensures k in m' <==> HistoryOf(rows + [r], k) != [] {
      HistoryAppend(rows, r, k);
    }
    forall k | k in m' ensures Summarises(HistoryOf(rows + [r], k), m'[k]) {
      HistoryAppend(rows, r, k);
      if k == r.key {
        AppendSummary(HistoryOf(rows, k), r, if k in m then Some(m[k]) else None, m'[k]);
      } else {
        assert HistoryOf(rows + [r], k) == HistoryOf(rows, k);
      }
    }
  }

  lemma AppendSummary<K, V, X>(h: seq<Reading<K, V, X>>, r: Reading<K, V, X>, old_: Option<State<V>>, new_: State<V>)
    requires old_.None? <==> h == []
    requires old_.Some? ==> Summarises(h, old_.value)
    requires new_ == State(r.value, if old_.Some? && old_.value.value == r.value then old_.value.since else r.ts, r.ts)
    ensures Summarises(h + [r], new_)
  {
    var g := h + [r];
    if old_.Some? && old_.value.value == r.value {
      var i :| IsLastRun(h, i) && old_.value == State(h[|h| - 1].value, h[i].ts, h[|h| - 1].ts);
      assert IsLastRun(g, i);
    } else {
      assert IsLastRun(g, |h|);
    }
  }

  // ------------------------------------------- against the edges of `timeline`

  lemma AscendingIsUnique<K, V, X>(rows: seq<Reading<K, V, X>>)
    requires Ascending(rows)
    ensures UniqueTs(rows)
  {
  }

  lemma {:induction false} HistoryAscends<K, V, X>(rows: seq<Reading<K, V, X>>, key: K)
    requires Ascending(rows)
    ensures forall i, j :: 0 <= i < j < |HistoryOf(rows, key)|
              ==> HistoryOf(rows, key)[i].ts < HistoryOf(rows, key)[j].ts
  {
    if rows != [] {
      var h := HistoryOf(rows[1..], key);
      HistoryAscends(rows[1..], key);
      forall i | 0 <= i < |h| && rows[0].key == key ensures rows[0].ts < h[i].ts {
        assert h[i] in rows[1..];
        var k :| 0 <= k < |rows[1..]| && rows[1..][k] == h[i];
        assert rows[k + 1] == h[i];
      }
    }
  }

  /** In a key's history `LAG` is the entry before. */
  lemma LagInHistory<K, V, X>(rows: seq<Reading<K, V, X>>, key: K, j: nat)
    requires Ascending(rows) && j < |HistoryOf(rows, key)|
    ensures var h := HistoryOf(rows, key);
            Lag(rows, h[j]) == if j == 0 then None else Some(h[j - 1])
  {
    var h := HistoryOf(rows, key);
    HistoryAscends(rows, key);
    AscendingIsUnique(rows);
    assert h[j] in h;
    var lag := Lag(rows, h[j]);
    if j > 0 {
      assert h[j - 1] in h;
      forall x | x in rows && x.key == key && x.ts <= h[j].ts - 1 ensures x.ts <= h[j - 1].ts {
        AtOrBefore(h, x, j);
      }
      AsOfIs(rows, key, h[j].ts - 1, h[j - 1]);
    } else {
      forall x | x in rows && x.key == key ensures x.ts >= h[0].ts {
        assert x in h;
      }
    }
  }

  lemma AtOrBefore<K, V, X>(h: seq<Reading<K, V, X>>, x: Reading<K, V, X>, j: nat)
    requires forall i, j :: 0 <= i < j < |h| ==> h[i].ts < h[j].ts
    requires x in h && 0 < j < |h| && x.ts < h[j].ts
    ensures x.ts <= h[j - 1].ts
  {
    var k :| 0 <= k < |h| && h[k] == x;
  }

  /** `since_ts` is the timestamp of the key's newest edge in the unbounded timeline, or of its first
      reading when it has none: the upsert and the window query date the current value alike. */
  lemma SinceIsNewestEdge<K(!new), V, X>(rows: seq<Reading<K, V, X>>, m: map<K, State<V>>, key: K)
    requires StateIsSummary(rows, m) && Ascending(rows) && key in m
    ensures var h := HistoryOf(rows, key);
            var e := NewestEdge(rows, key, m[key].lastSeen);
            h != [] && m[key].since == (if e.Some? then e.value.ts else h[0].ts)
            && m[key].value == Replay(rows, h[0].value, key, m[key].lastSeen)
  {
    SummaryOf(rows, m, key);
    SummaryDatesNewestEdge(rows, key, m[key], HistoryOf(rows, key));
  }

  /** What a summary says of a history whose edge newest at its end is `e`. */
  lemma SummaryDates<K, V, X>(h: seq<Reading<K, V, X>>, st: State<V>, i: nat, e: Option<Reading<K, V, X>>)
    requires IsLastRun(h, i) && st == State(h[|h| - 1].value, h[i].ts, h[|h| - 1].ts)
    requires e == if i > 0 then Some(h[i]) else None
    ensures st.since == (if e.Some? then e.value.ts else h[0].ts)
    ensures st.value == if e.Some? then e.value.value else h[0].value
  {
  }

  lemma SummaryOf<K(!new), V, X>(rows: seq<Reading<K, V, X>>, m: map<K, State<V>>, key: K)
    requires StateIsSummary(rows, m) && key in m
    ensures Summarises(HistoryOf(rows, key), m[key])
  {
  }

  lemma SummaryDatesNewestEdge<K, V, X>(rows: seq<Reading<K, V, X>>, key: K, st: State<V>, h: seq<Reading<K, V, X>>)
    requires Ascending(rows) && h == HistoryOf(rows, key) && Summarises(h, st)
    ensures var e := NewestEdge(rows, key, st.lastSeen);
            && h != []
            && st.since == (if e.Some? then e.value.ts else h[0].ts)
            && st.value == (if e.Some? then e.value.value else h[0].value)
  {
    var i :| IsLastRun(h, i) && st == State(h[|h| - 1].value, h[i].ts, h[|h| - 1].ts);
    RunDatesNewestEdge(rows, key, st, h, i);
  }

  /** The newest arrival of `key` by `t`. */
  function NewestEdge<K(==), V(==), X>(rows: seq<Reading<K, V, X>>, key: K, t: int): Option<Reading<K, V, X>> {
    AsOf(Arrivals(Changes(rows)), key, t)
  }

  lemma RunDatesNewestEdge<K, V, X>(rows: seq<Reading<K, V, X>>, key: K, st: State<V>, h: seq<Reading<K, V, X>>, i: nat)
    requires Ascending(rows) && h == HistoryOf(rows, key)
    requires IsLastRun(h, i) && st == State(h[|h| - 1].value, h[i].ts, h[|h| - 1].ts)
    ensures var e := NewestEdge(rows, key, st.lastSeen);
            && st.since == (if e.Some? then e.value.ts else h[0].ts)
            && st.value == (if e.Some? then e.value.value else h[0].value)
  {
    RunStartsAtNewestEdge(rows, key, i);
    SummaryDates(h, st, i, NewestEdge(rows, key, st.lastSeen));
  }

  lemma RunStartsAtNewestEdge<K, V, X>(rows: seq<Reading<K, V, X>>, key: K, i: nat)
    requires Ascending(rows) && IsLastRun(HistoryOf(rows, key), i)
    ensures var h := HistoryOf(rows, key);
            AsOf(Arrivals(Changes(rows)), key, h[|h| - 1].ts) == if i > 0 then Some(h[i]) else None
  {
    var h, ups := HistoryOf(rows, key), Arrivals(Changes(rows));
    HistoryAscends(rows, key);
    forall x | x in ups && x.key == key ensures i > 0 && x.ts <= h[i].ts {
      ArrivalInRun(rows, key, i, x);
    }
    if i > 0 {
      RunStartArrives(rows, key, i);
      AscendingIsUnique(rows);
      ArrivalsUnique(rows, rows);
      assert h[i] in h;
      AsOfIs(ups, key, h[|h| - 1].ts, h[i]);
    }
  }

  lemma RunStartArrives<K, V, X>(rows: seq<Reading<K, V, X>>, key: K, i: nat)
    requires Ascending(rows) && IsLastRun(HistoryOf(rows, key), i) && i > 0
    ensures HistoryOf(rows, key)[i] in Arrivals(Changes(rows))
  {
    var h := HistoryOf(rows, key);
    LagInHistory(rows, key, i);
    var e := Change(h[i - 1], h[i]);
    assert h[i] in h;
    ChangesInIs(rows, rows, e);
    var n :| 0 <= n < |Changes(rows)| && Changes(rows)[n] == e;
    assert Arrivals(Changes(rows))[n] == h[i];
  }

  /** No edge arrives inside the last run. */
  lemma ArrivalInRun<K, V, X>(rows: seq<Reading<K, V, X>>, key: K, i: nat, x: Reading<K, V, X>)
    requires Ascending(rows) && IsLastRun(HistoryOf(rows, key), i)
    requires x in Arrivals(Changes(rows)) && x.key == key
    ensures i > 0 && x.ts <= HistoryOf(rows, key)[i].ts
  {
    var h, ups := HistoryOf(rows, key), Arrivals(Changes(rows));
    var n :| 0 <= n < |ups| && ups[n] == x;
    ChangesInIs(rows, rows, Changes(rows)[n]);
    assert x in h;
    var j :| 0 <= j < |h| && h[j] == x;
    LagInHistory(rows, key, j);
    HistoryAscends(rows, key);
    assert j <= i;
  }
}
