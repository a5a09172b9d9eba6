/** Retention: batched deletes of old samples, by hand and in slices between writes. */
module Prune {
  import opened Wrappers

  /** A time-series table, by rowid. */
  type Table = map<nat, int>

  /** `runner_sample`, `host_sample`, `api_runner_sample`, `queue_sample`, `api_reconcile_sample`. */
  const SAMPLE_TABLES := 5

  type Tables = s: seq<Table> | |s| == SAMPLE_TABLES witness seq(5, _ => map[])

  function OldRows(t: Table, cutoff: int): set<nat> {
    set r | r in t && t[r] < cutoff
  }

  /** Exactly the rows at or after the cutoff. */
  function Keep(t: Table, cutoff: int): Table {
    map r | r in t && t[r] >= cutoff :: t[r]
  }

  function KeepAll(ts: Tables, cutoff: int): (r: Tables)
    ensures forall i :: 0 <= i < SAMPLE_TABLES ==> r[i] == Keep(ts[i], cutoff)
  {
    seq(SAMPLE_TABLES, i requires 0 <= i < SAMPLE_TABLES => Keep(ts[i], cutoff))
  }

  function Size(ts: seq<Table>): nat {
    if ts == [] then 0 else Size(ts[..|ts| - 1]) + |ts[|ts| - 1]|
  }

  /** `after` is `before` without some rows older than the cutoff. */
  ghost predicate Shrinks(before: Table, after: Table, cutoff: int) {
    && (forall r :: r in after ==> r in before && after[r] == before[r])
    && (forall r :: r in before && r !in after ==> before[r] < cutoff)
  }

  ghost predicate ShrinksAll(before: Tables, after: Tables, cutoff: int) {
    forall i :: 0 <= i < SAMPLE_TABLES ==> Shrinks(before[i], after[i], cutoff)
  }

  /** `DELETE ... WHERE rowid IN (SELECT rowid ... WHERE ts < cutoff LIMIT batch)`: which rows go is
      SQLite's choice. */
  ghost predicate IsDelete(before: Table, after: Table, cutoff: int, batch: nat) {
    && Shrinks(before, after, cutoff)
    && |before| == |after| + (if |OldRows(before, cutoff)| < batch then |OldRows(before, cutoff)| else batch)
  }

  ghost predicate Clean(ts: Tables, cutoff: int) {
    forall i :: 0 <= i < SAMPLE_TABLES ==> OldRows(ts[i], cutoff) == {}
  }

  method DeleteSome(before: Table, cutoff: int, batch: nat) returns (after: Table, n: nat)
    ensures IsDelete(before, after, cutoff, batch)
    ensures |before| == |after| + n
  {
    after, n := before, 0;
    while n < batch && OldRows(after, cutoff) != {}
      invariant n <= batch && Shrinks(before, after, cutoff)
      invariant |before| == |after| + n && |OldRows(before, cutoff)| == |OldRows(after, cutoff)| + n
      decreases batch - n
    {
      var r :| r in OldRows(after, cutoff);
      assert OldRows(after - {r}, cutoff) == OldRows(after, cutoff) - {r};
      assert (after - {r}).Keys == after.Keys - {r};
      after, n := after - {r}, n + 1;
    }
  }

  /** The store: sample tables, and everything pruning must leave alone. */
  class Db<S> {
    var samples: Tables
    const rest: S

    constructor (samples: Tables, rest: S)
      ensures this.samples == samples && this.rest == rest
    {
      this.samples, this.rest := samples, rest;
    }

    /** One transaction over every sample table; returns how many rows went. */
    method PruneBatch(cutoff: int, batch: nat) returns (removed: nat)
      modifies this
      ensures forall i :: 0 <= i < SAMPLE_TABLES ==> IsDelete(old(samples)[i], samples[i], cutoff, batch)
      ensures Size(old(samples)) == Size(samples) + removed
    {
      removed := 0;
      var was := samples;
      var ts: seq<Table> := [];
      for i := 0 to SAMPLE_TABLES
        invariant |ts| == i && samples == was
        invariant forall j :: 0 <= j < i ==> IsDelete(was[j], ts[j], cutoff, batch)
        invariant Size(was[..i]) == Size(ts) + removed
      {
        var kept, n := DeleteSome(was[i], cutoff, batch);
        assert was[..i + 1][..i] == was[..i];
        assert (ts + [kept])[..i] == ts;
        ts := ts + [kept];
        removed := removed + n;
      }
      assert was[..SAMPLE_TABLES] == was;
      samples := ts;
    }

    /** `db prune`: batches until one removes nothing. */
    method PruneAll(cutoff: int, batch: nat) returns (removed: nat)
      requires batch > 0
      modifies this
      ensures samples == KeepAll(old(samples), cutoff)
      ensures Size(old(samples)) == Size(samples) + removed
    {
      removed := 0;
      var more := true;
      while more
        invariant ShrinksAll(old(samples), samples, cutoff)
        invariant Size(old(samples)) == Size(samples) + removed
        invariant !more ==> Clean(samples, cutoff)
        decreases more, Size(samples)
      {
        ghost var before := samples;
        var n := PruneBatch(cutoff, batch);
        ShrinksTransitive(old(samples), before, samples, cutoff, cutoff);
        if n == 0 {
          EmptyBatchMeansClean(before, samples, cutoff, batch);
          more := false;
        } else {
          removed := removed + n;
        }
      }
      CleanIsKept(old(samples), samples, cutoff);
    }
  }

  datatype Verdict = NotDue | Forever | Finished(total: nat) | Failed | Sliced

  const EVERY := 3600

  /** Deletes old samples hourly, in slices between writes. */
  class Pruner<S> {
    const db: Db<S>
    var due: int
    var removed: nat

    constructor (db: Db<S>, now: int)
      ensures this.db == db && due == now && removed == 0
    {
      this.db, this.due, this.removed := db, now, 0;
    }

    /** One step. The clock enters as `now` on entry, `after` on exit and `budget`, the batches that
        fit in a slice; `failing` is the batch SQLite refuses, if any. */
    method Step(cutoff: Option<int>, now: int, after: int, budget: nat, failing: Option<nat>, batch: nat)
      returns (v: Verdict)
      requires batch > 0 && budget > 0
      modifies this, db
      ensures v == NotDue <==> now < old(due)
      ensures v == Forever <==> now >= old(due) && cutoff.None?
      ensures v.NotDue? || v.Forever? ==> db.samples == old(db.samples) && removed == old(removed)
      ensures due == if v.NotDue? || v.Sliced? then old(due) else after + EVERY
      ensures v.Finished? || v.Failed? || v.Sliced? ==> ShrinksAll(old(db.samples), db.samples, cutoff.value)
      ensures v.Finished? ==> Clean(db.samples, cutoff.value) && removed == 0
                              && v.total + Size(db.samples) == old(removed) + Size(old(db.samples))
      ensures v.Failed? || v.Sliced? ==> removed + Size(db.samples) == old(removed) + Size(old(db.samples))
      ensures v.Sliced? ==> Size(db.samples) < Size(old(db.samples))
    {
      if now < due {
        return NotDue;
      }
      if cutoff.None? {
        due := after + EVERY;
        return Forever;
      }
      var done := 0;
      while true
        invariant ShrinksAll(old(db.samples), db.samples, cutoff.value)
        invariant removed + Size(db.samples) == old(removed) + Size(old(db.samples))
        invariant due == old(due) && done < budget
        invariant removed >= old(removed) + done
        decreases budget - done
      {
        if failing == Some(done) {
          due := after + EVERY;
          return Failed;
        }
        ghost var before := db.samples;
        var n := db.PruneBatch(cutoff.value, batch);
        ShrinksTransitive(old(db.samples), before, db.samples, cutoff.value, cutoff.value);
        if n == 0 {
          EmptyBatchMeansClean(before, db.samples, cutoff.value, batch);
          v := Finished(removed);
          removed := 0;
          due := after + EVERY;
          return v;
        }
        removed := removed + n;
        done := done + 1;
        if done >= budget {
          return Sliced;
        }
      }
    }
  }

  // ------------------------------------------------------------------ lemmas

  lemma ShrinksTransitive(a: Tables, b: Tables, c: Tables, first: int, second: int)
    requires ShrinksAll(a, b, first) && (forall i :: 0 <= i < SAMPLE_TABLES ==> Shrinks(b[i], c[i], second))
    requires first <= second
    ensures ShrinksAll(a, c, second)
  {
    forall i | 0 <= i < SAMPLE_TABLES ensures Shrinks(a[i], c[i], second) {
      assert Shrinks(a[i], b[i], first) && Shrinks(b[i], c[i], second);
    }
  }

  lemma {:induction false} SizeZeroStep(before: seq<Table>, after: seq<Table>, i: nat)
    requires |before| == |after| && i < |before| && (forall j :: 0 <= j < |before| ==> |after[j]| <= |before[j]|)
    requires Size(before) == Size(after)
    ensures |before[i]| == |after[i]|
  {
    var n := |before| - 1;
    SizeMonotone(before[..n], after[..n]);
    if i < n {
      SizeZeroStep(before[..n], after[..n], i);
    }
  }

  lemma {:induction false} SizeMonotone(before: seq<Table>, after: seq<Table>)
    requires |before| == |after| && (forall j :: 0 <= j < |before| ==> |after[j]| <= |before[j]|)
    ensures Size(after) <= Size(before)
  {
    if before != [] {
      SizeMonotone(before[..|before| - 1], after[..|after| - 1]);
    }
  }

  /** A batch that removes nothing found nothing to remove. */
  lemma EmptyBatchMeansClean(before: Tables, after: Tables, cutoff: int, batch: nat)
    requires batch > 0 && Size(before) == Size(after)
    requires forall i :: 0 <= i < SAMPLE_TABLES ==> IsDelete(before[i], after[i], cutoff, batch)
    ensures Clean(after, cutoff)
  {
    forall i | 0 <= i < SAMPLE_TABLES ensures OldRows(after[i], cutoff) == {} {
      SizeZeroStep(before, after, i);
      assert OldRows(before[i], cutoff) == {};
      assert OldRows(after[i], cutoff) <= OldRows(before[i], cutoff);
    }
  }

  /** Only old rows went and none are left: what remains is exactly the rows at or after the cutoff. */
  lemma CleanIsKept(before: Tables, after: Tables, cutoff: int)
    requires ShrinksAll(before, after, cutoff) && Clean(after, cutoff)
    ensures after == KeepAll(before, cutoff)
  {
    forall i | 0 <= i < SAMPLE_TABLES ensures after[i] == Keep(before[i], cutoff) {
      forall r | r in after[i] ensures after[i][r] >= cutoff {
        assert r !in OldRows(after[i], cutoff);
      }
    }
  }

  /** Slices of pruning with a cutoff that never moves back, as the clock moves on between steps, end
      where one uninterrupted prune at the last cutoff would: whatever each batch picked, however
      often it was interrupted or failed. */
  lemma {:induction false} SlicesReachOnePrune(states: seq<Tables>, cutoffs: seq<int>)
    requires |states| == |cutoffs| + 1 && cutoffs != []
    requires forall k :: 0 <= k < |cutoffs| ==> ShrinksAll(states[k], states[k + 1], cutoffs[k])
    requires forall k :: 0 < k < |cutoffs| ==> cutoffs[k - 1] <= cutoffs[k]
    requires Clean(states[|cutoffs|], cutoffs[|cutoffs| - 1])
    ensures states[|cutoffs|] == KeepAll(states[0], cutoffs[|cutoffs| - 1])
  {
    Accumulate(states, cutoffs);
    CleanIsKept(states[0], states[|cutoffs|], cutoffs[|cutoffs| - 1]);
  }

  lemma {:induction false} Accumulate(states: seq<Tables>, cutoffs: seq<int>)
    requires |states| == |cutoffs| + 1 && cutoffs != []
    requires forall k :: 0 <= k < |cutoffs| ==> ShrinksAll(states[k], states[k + 1], cutoffs[k])
    requires forall k :: 0 < k < |cutoffs| ==> cutoffs[k - 1] <= cutoffs[k]
    ensures ShrinksAll(states[0], states[|cutoffs|], cutoffs[|cutoffs| - 1])
  {
    var n := |cutoffs|;
    if n > 1 {
      Accumulate(states[..n], cutoffs[..n - 1]);
      ShrinksTransitive(states[0], states[n - 1], states[n], cutoffs[n - 2], cutoffs[n - 1]);
    }
  }
}
