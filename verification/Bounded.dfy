/** Newest-first rows, SQL's `ORDER BY ts DESC LIMIT n`, and the bounded collections of a reply. */
module Bounded {
  import opened Seqs

  datatype Stamped<P> = Stamped(ts: int, what: P)

  /** `items` oldest first; `limited` tells whether a limit dropped rows. */
  datatype Bounded<P> = Bounded(items: seq<Stamped<P>>, limited: bool)

  const U64_MAX := 0xFFFF_FFFF_FFFF_FFFF
  const I64_LIMIT := 0x8000_0000_0000_0000

  /** Rust's `usize as i64` on a 64-bit target. */
  function AsI64(n: nat): int
    requires n <= U64_MAX
  {
    if n < I64_LIMIT then n else n - (U64_MAX + 1)
  }

  /** `limit.saturating_add(1)`. */
  function Probe(limit: nat): nat
    requires limit <= U64_MAX
  {
    if limit == U64_MAX then U64_MAX else limit + 1
  }

  function Min(a: int, b: int): int {
    if a <= b then a else b
  }

  ghost predicate NewestFirst<P>(s: seq<Stamped<P>>) {
    forall i, j :: 0 <= i < j < |s| ==> s[i].ts >= s[j].ts
  }

  ghost predicate OldestFirst<P>(s: seq<Stamped<P>>) {
    forall i, j :: 0 <= i < j < |s| ==> s[i].ts <= s[j].ts
  }

  /** `kept` are rows of `all`, and no row left out is newer than one kept. */
  ghost predicate KeepsNewest<P(!new)>(all: seq<Stamped<P>>, kept: seq<Stamped<P>>) {
    && multiset(kept) <= multiset(all)
    && forall x, y :: x in multiset(all) - multiset(kept) && y in kept ==> x.ts <= y.ts
  }

  /** What `ORDER BY ts DESC LIMIT n` may return: ties are cut arbitrarily, and a negative limit is
      no limit. */
  ghost predicate IsCut<P(!new)>(all: seq<Stamped<P>>, n: int, cut: seq<Stamped<P>>) {
    && NewestFirst(cut)
    && |cut| == (if n < 0 then |all| else Min(n, |all|))
    && KeepsNewest(all, cut)
  }

  /** A stream cut one row over `limit`: either whole, or long enough to show that it was cut. */
  ghost predicate IsProbe<P(!new)>(all: seq<Stamped<P>>, limit: nat, cut: seq<Stamped<P>>) {
    NewestFirst(cut) && KeepsNewest(all, cut) && (|cut| == |all| || limit < |cut| <= |all|)
  }

  /** Saturation and the cast to a signed limit never cut a stream to `limit` rows or fewer. */
  lemma ProbeCuts<P(!new)>(all: seq<Stamped<P>>, limit: nat, cut: seq<Stamped<P>>)
    requires limit <= U64_MAX && IsCut(all, AsI64(Probe(limit)), cut)
    ensures IsProbe(all, limit, cut)
  {
  }

  /** What a bounded collection promises its reader about the rows behind it. */
  ghost predicate IsNewest<P(!new)>(all: seq<Stamped<P>>, limit: nat, b: Bounded<P>) {
    && OldestFirst(b.items)
    && |b.items| == Min(limit, |all|)
    && KeepsNewest(all, b.items)
    && (b.limited <==> |all| > limit)
  }

  function Reverse<T>(s: seq<T>): (r: seq<T>)
    ensures |r| == |s| && forall i :: 0 <= i < |s| ==> r[i] == s[|s| - 1 - i]
  {
    if s == [] then [] else Reverse(s[1..]) + [s[0]]
  }

  lemma {:induction false} ReverseMultiset<T>(s: seq<T>)
    ensures multiset(Reverse(s)) == multiset(s)
  {
    if s != [] {
      ReverseMultiset(s[1..]);
      assert s == [s[0]] + s[1..];
    }
  }

  function Insert<P>(x: Stamped<P>, s: seq<Stamped<P>>): seq<Stamped<P>> {
    if s == [] || x.ts >= s[0].ts then [x] + s else [s[0]] + Insert(x, s[1..])
  }

  /** Rust's stable sort on `Reverse(ts)`. */
  function SortNewestFirst<P>(s: seq<Stamped<P>>): seq<Stamped<P>> {
    if s == [] then [] else Insert(s[0], SortNewestFirst(s[1..]))
  }

  lemma {:induction false} InsertMultiset<P>(x: Stamped<P>, s: seq<Stamped<P>>)
    ensures multiset(Insert(x, s)) == multiset{x} + multiset(s)
  {
    if s != [] && x.ts < s[0].ts {
      InsertMultiset(x, s[1..]);
      assert s == [s[0]] + s[1..];
    } else {
      assert Insert(x, s) == [x] + s;
    }
  }

  lemma {:induction false} InsertSorted<P>(x: Stamped<P>, s: seq<Stamped<P>>)
    requires NewestFirst(s)
    ensures NewestFirst(Insert(x, s))
  {
    if s != [] && x.ts < s[0].ts {
      InsertSorted(x, s[1..]);
      InsertMultiset(x, s[1..]);
      var rest := Insert(x, s[1..]);
      forall i | 0 <= i < |rest| ensures rest[i].ts <= s[0].ts {
        assert rest[i] in multiset(rest);
        if rest[i] != x {
          assert rest[i] in s[1..];
        }
      }
    }
  }

  /** The sort permutes its rows into newest-first order. */
  lemma {:induction false} SortSorts<P>(s: seq<Stamped<P>>)
    ensures NewestFirst(SortNewestFirst(s))
    ensures multiset(SortNewestFirst(s)) == multiset(s)
    ensures |SortNewestFirst(s)| == |s|
  {
    if s != [] {
      SortSorts(s[1..]);
      InsertSorted(s[0], SortNewestFirst(s[1..]));
      InsertMultiset(s[0], SortNewestFirst(s[1..]));
      assert s == [s[0]] + s[1..];
    }
    SameSize(SortNewestFirst(s), s);
  }

  lemma SameSize<T>(s: seq<T>, t: seq<T>)
    requires multiset(s) == multiset(t)
    ensures |s| == |t|
  {
    assert |multiset(s)| == |s|;
    assert |multiset(t)| == |t|;
  }

  function At<P>(t: int): Stamped<P> -> bool {
    (r: Stamped<P>) => r.ts == t
  }

  lemma Swapped<T>(a: seq<T>, b: seq<T>, rest: seq<T>)
    requires a == [] || b == []
    ensures b + (a + rest) == a + (b + rest)
  {
    if a == [] {
      assert a + rest == rest && a + (b + rest) == b + rest;
    } else {
      assert b + rest == rest && b + (a + rest) == a + rest;
    }
  }

  lemma {:induction false} InsertStable<P>(x: Stamped<P>, s: seq<Stamped<P>>, t: int)
    ensures Where(Insert(x, s), At(t)) == Where([x] + s, At(t))
  {
    if s != [] && x.ts < s[0].ts {
      var head, rest := s[0], s[1..];
      InsertStable(x, rest, t);
      WhereCons(head, Insert(x, rest), At(t));
      WhereCons(x, rest, At(t));
      WhereCons(x, s, At(t));
      assert s == [head] + rest;
      WhereCons(head, rest, At(t));
      Swapped(if x.ts == t then [x] else [], if head.ts == t then [head] else [], Where(rest, At(t)));
    }
  }

  /** Rows of one timestamp keep their order. */
  lemma {:induction false} SortIsStable<P>(s: seq<Stamped<P>>, t: int)
    ensures Where(SortNewestFirst(s), At(t)) == Where(s, At(t))
  {
    if s != [] {
      SortIsStable(s[1..], t);
      InsertStable(s[0], SortNewestFirst(s[1..]), t);
      WhereCons(s[0], SortNewestFirst(s[1..]), At(t));
    }
  }

  /** One way SQLite may answer; callers rely on `IsCut` alone. */
  method OrderByTsDescLimit<P(!new)>(all: seq<Stamped<P>>, n: int) returns (cut: seq<Stamped<P>>)
    ensures IsCut(all, n, cut)
  {
    var sorted := SortNewestFirst(all);
    SortSorts(all);
    cut := if n < 0 then sorted else sorted[..Min(n, |sorted|)];
    PrefixKeepsNewest(all, sorted, |cut|);
    assert cut == sorted[..|cut|];
  }

  lemma PrefixKeepsNewest<P(!new)>(all: seq<Stamped<P>>, sorted: seq<Stamped<P>>, n: nat)
    requires multiset(sorted) == multiset(all) && NewestFirst(sorted) && n <= |sorted|
    ensures NewestFirst(sorted[..n]) && KeepsNewest(all, sorted[..n])
  {
    RestOfSorted(all, sorted, n);
    var kept := sorted[..n];
    forall x, y | x in multiset(all) - multiset(kept) && y in kept ensures x.ts <= y.ts {
      assert x in multiset(sorted[n..]);
      LaterIsOlder(sorted, n, x, y);
    }
  }

  lemma RestOfSorted<P>(all: seq<Stamped<P>>, sorted: seq<Stamped<P>>, n: nat)
    requires multiset(sorted) == multiset(all) && n <= |sorted|
    ensures multiset(all) - multiset(sorted[..n]) == multiset(sorted[n..])
    ensures multiset(sorted[..n]) <= multiset(all)
  {
    assert sorted == sorted[..n] + sorted[n..];
  }

  lemma LaterIsOlder<P>(sorted: seq<Stamped<P>>, n: nat, x: Stamped<P>, y: Stamped<P>)
    requires NewestFirst(sorted) && n <= |sorted| && x in sorted[n..] && y in sorted[..n]
    ensures x.ts <= y.ts
  {
    var i :| 0 <= i < |sorted[n..]| && sorted[n..][i] == x;
    assert sorted[n + i] == x;
  }

  /** `rows` arrive newest first; keeps the newest `limit`, oldest first. */
  method Newest<P(!new)>(rows: seq<Stamped<P>>, limit: nat) returns (b: Bounded<P>)
    requires NewestFirst(rows)
    ensures IsNewest(rows, limit, b)
    ensures b.items == Reverse(rows[..Min(limit, |rows|)])
  {
    var kept := rows;
    var limited := |kept| > limit;
    kept := kept[..Min(limit, |kept|)];
    kept := Reverse(kept);
    b := Bounded(kept, limited);
    ReversedPrefix(rows, limit);
  }

  lemma ReversedPrefix<P(!new)>(rows: seq<Stamped<P>>, limit: nat)
    requires NewestFirst(rows)
    ensures IsNewest(rows, limit, Bounded(Reverse(rows[..Min(limit, |rows|)]), |rows| > limit))
  {
    var kept := rows[..Min(limit, |rows|)];
    PrefixKeepsNewest(rows, rows, |kept|);
    ReverseMultiset(kept);
    forall y | y in Reverse(kept) ensures y in kept {
      assert y in multiset(Reverse(kept));
    }
  }

  lemma SubsetSize<T>(a: multiset<T>, b: multiset<T>)
    requires a <= b
    ensures |a| <= |b|
  {
    assert b == a + (b - a);
  }

  /** If `|s|` rows of a sorted sequence are at least as new as `t`, so are its first `|s|` rows. */
  lemma FirstRowsAreNewest<P>(sorted: seq<Stamped<P>>, s: seq<Stamped<P>>, t: int, i: nat)
    requires NewestFirst(sorted) && multiset(s) <= multiset(sorted)
    requires forall y :: y in s ==> y.ts >= t
    requires i < |s|
    ensures i < |sorted| && sorted[i].ts >= t
  {
    SubsetSize(multiset(s), multiset(sorted));
    assert |multiset(s)| == |s| && |multiset(sorted)| == |sorted|;
    if sorted[i].ts < t {
      NewRowsFit(sorted, s, t, i);
    }
  }

  lemma NewRowsFit<P>(sorted: seq<Stamped<P>>, s: seq<Stamped<P>>, t: int, i: nat)
    requires NewestFirst(sorted) && multiset(s) <= multiset(sorted)
    requires forall y :: y in s ==> y.ts >= t
    requires i < |sorted| && sorted[i].ts < t
    ensures |s| <= i
  {
    var head, tail := sorted[..i], sorted[i..];
    assert sorted == head + tail;
    forall x: Stamped<P> | x in multiset(tail) ensures x.ts < t {
      var j :| 0 <= j < |tail| && tail[j] == x;
      assert sorted[i + j] == x;
    }
    forall x: Stamped<P> | x in multiset(s) ensures multiset(s)[x] <= multiset(head)[x] {
      assert x in s;
      assert x !in multiset(tail);
    }
    SubsetSize(multiset(s), multiset(head));
    assert |multiset(s)| == |s| && |multiset(head)| == i;
  }

  /** No row a stream's cut left out is newer than one of the first `limit` rows of the merge. */
  ghost predicate CutRowsAreOld<P(!new)>(
    all: multiset<Stamped<P>>, cut: multiset<Stamped<P>>, merged: seq<Stamped<P>>, limit: nat)
  {
    forall x, i :: x in all - cut && 0 <= i < limit && i < |merged| ==> x.ts <= merged[i].ts
  }

  lemma CutStreamIsOld<P(!new)>(all: seq<Stamped<P>>, cut: seq<Stamped<P>>, limit: nat, merged: seq<Stamped<P>>)
    requires IsProbe(all, limit, cut) && NewestFirst(merged) && multiset(cut) <= multiset(merged)
    ensures CutRowsAreOld(multiset(all), multiset(cut), merged, limit)
  {
    if |cut| == |all| {
      FullCut(all, cut);
    }
    forall x, i | x in multiset(all) - multiset(cut) && 0 <= i < limit && i < |merged|
      ensures x.ts <= merged[i].ts
    {
      FirstRowsAreNewest(merged, cut, x.ts, i);
    }
  }

  lemma FullCut<P>(all: seq<Stamped<P>>, cut: seq<Stamped<P>>)
    requires multiset(cut) <= multiset(all) && |cut| == |all|
    ensures multiset(cut) == multiset(all)
  {
    assert multiset(all) == multiset(cut) + (multiset(all) - multiset(cut));
    assert |multiset(all)| == |all| && |multiset(cut)| == |cut|;
    assert |multiset(all) - multiset(cut)| == 0;
  }

  /** Three streams cut to one row over the limit, merged, sorted and cut again, give the newest
      rows of the whole union, and `limited` still tells whether the union was cut. */
  lemma UnionOfCuts<P(!new)>(
    a: seq<Stamped<P>>, b: seq<Stamped<P>>, c: seq<Stamped<P>>, limit: nat,
    ca: seq<Stamped<P>>, cb: seq<Stamped<P>>, cc: seq<Stamped<P>>, merged: seq<Stamped<P>>, r: Bounded<P>)
    requires IsProbe(a, limit, ca) && IsProbe(b, limit, cb) && IsProbe(c, limit, cc)
    requires NewestFirst(merged) && multiset(merged) == multiset(ca + cb + cc)
    requires IsNewest(merged, limit, r) && r.items == Reverse(merged[..Min(limit, |merged|)])
    ensures IsNewest(a + b + c, limit, r)
  {
    var ma, mb, mc := multiset(a), multiset(b), multiset(c);
    var na, nb, nc := multiset(ca), multiset(cb), multiset(cc);
    assert multiset(a + b + c) == ma + mb + mc;
    assert multiset(merged) == na + nb + nc;
    SameSize(merged, ca + cb + cc);
    PartsOfSum(na, nb, nc);
    CutStreamIsOld(a, ca, limit, merged);
    CutStreamIsOld(b, cb, limit, merged);
    CutStreamIsOld(c, cc, limit, merged);
    MergeKeepsNewest(ma, mb, mc, na, nb, nc, limit, merged, a + b + c);
  }

  lemma PartsOfSum<T>(a: multiset<T>, b: multiset<T>, c: multiset<T>)
    ensures a <= a + b + c && b <= a + b + c && c <= a + b + c
  {
  }

  lemma MergeKeepsNewest<P(!new)>(
    a: multiset<Stamped<P>>, b: multiset<Stamped<P>>, c: multiset<Stamped<P>>,
    ca: multiset<Stamped<P>>, cb: multiset<Stamped<P>>, cc: multiset<Stamped<P>>,
    limit: nat, merged: seq<Stamped<P>>, all: seq<Stamped<P>>)
    requires CutRowsAreOld(a, ca, merged, limit) && CutRowsAreOld(b, cb, merged, limit)
    requires CutRowsAreOld(c, cc, merged, limit)
    requires NewestFirst(merged) && multiset(merged) == ca + cb + cc && multiset(all) == a + b + c
    requires ca <= a && cb <= b && cc <= c
    ensures KeepsNewest(all, Reverse(merged[..Min(limit, |merged|)]))
  {
    var n := Min(limit, |merged|);
    var head := merged[..n];
    ReverseMultiset(head);
    assert merged == head + merged[n..];
    SumsOfCuts(a, b, c, ca, cb, cc, multiset(head), multiset(merged[n..]));
    var kept := Reverse(head);
    assert multiset(kept) == multiset(head);
    forall x, y | x in multiset(all) - multiset(kept) && y in kept ensures x.ts <= y.ts {
      assert y in multiset(kept);
      var i :| 0 <= i < n && head[i] == y;
      DroppedRow(a, b, c, ca, cb, cc, limit, merged, x, i);
    }
  }

  lemma SumsOfCuts<T>(a: multiset<T>, b: multiset<T>, c: multiset<T>, ca: multiset<T>, cb: multiset<T>,
                      cc: multiset<T>, head: multiset<T>, tail: multiset<T>)
    requires ca <= a && cb <= b && cc <= c && head + tail == ca + cb + cc
    ensures head <= a + b + c
  {
    assert ca + cb + cc <= a + b + c;
  }

  lemma DroppedRow<P(!new)>(
    a: multiset<Stamped<P>>, b: multiset<Stamped<P>>, c: multiset<Stamped<P>>,
    ca: multiset<Stamped<P>>, cb: multiset<Stamped<P>>, cc: multiset<Stamped<P>>,
    limit: nat, merged: seq<Stamped<P>>, x: Stamped<P>, i: nat)
    requires CutRowsAreOld(a, ca, merged, limit) && CutRowsAreOld(b, cb, merged, limit)
    requires CutRowsAreOld(c, cc, merged, limit)
    requires NewestFirst(merged) && multiset(merged) == ca + cb + cc
    requires i < Min(limit, |merged|)
    requires x in a + b + c - multiset(merged[..Min(limit, |merged|)])
    ensures x.ts <= merged[i].ts
  {
    var n := Min(limit, |merged|);
    if x !in a - ca && x !in b - cb && x !in c - cc {
      assert merged == merged[..n] + merged[n..];
      LeftInTail(a, b, c, ca, cb, cc, multiset(merged[..n]), multiset(merged[n..]), x);
      TailIsOlder(merged, n, x, i);
    }
  }

  lemma TailIsOlder<P>(merged: seq<Stamped<P>>, n: nat, x: Stamped<P>, i: nat)
    requires NewestFirst(merged) && i < n <= |merged| && x in merged[n..]
    ensures x.ts <= merged[i].ts
  {
    var j :| 0 <= j < |merged[n..]| && merged[n..][j] == x;
    assert merged[n + j] == x;
  }

  /** A row no stream cut and the final cut did not keep sits in the merge behind the kept rows. */
  lemma LeftInTail<T>(a: multiset<T>, b: multiset<T>, c: multiset<T>, ca: multiset<T>, cb: multiset<T>,
                      cc: multiset<T>, head: multiset<T>, tail: multiset<T>, x: T)
    requires head + tail == ca + cb + cc
    requires x in a + b + c - head && x !in a - ca && x !in b - cb && x !in c - cc
    ensures x in tail
  {
    assert (a - ca)[x] == 0 && (b - cb)[x] == 0 && (c - cc)[x] == 0;
    assert (head + tail)[x] == (ca + cb + cc)[x];
  }
}
