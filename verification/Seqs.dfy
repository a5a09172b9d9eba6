/** Regrouping and filtering sequences. */
module Seqs {
  lemma Regroup<T>(a: seq<T>, b: seq<T>, c: seq<T>)
    ensures a + (b + c) == (a + b) + c
  {
  }

  /** SQL's `WHERE`. */
  function Where<T>(rows: seq<T>, keep: T -> bool): (r: seq<T>)
    ensures forall x :: x in r ==> x in rows && keep(x)
    ensures forall x :: x in rows && keep(x) ==> x in r
  {
    if rows == [] then []
    else
      assert rows == [rows[0]] + rows[1..];
      (if keep(rows[0]) then [rows[0]] else []) + Where(rows[1..], keep)
  }

  lemma {:induction false} WhereConcat<T>(a: seq<T>, b: seq<T>, keep: T -> bool)
    ensures Where(a + b, keep) == Where(a, keep) + Where(b, keep)
  {
    if a == [] {
      assert a + b == b;
    } else {
      assert (a + b)[1..] == a[1..] + b;
      WhereConcat(a[1..], b, keep);
    }
  }

  lemma WhereCons<T>(x: T, s: seq<T>, keep: T -> bool)
    ensures Where([x] + s, keep) == (if keep(x) then [x] else []) + Where(s, keep)
  {
    assert ([x] + s)[1..] == s;
  }

  lemma {:induction false} WhereAll<T>(s: seq<T>, keep: T -> bool)
    requires forall x :: x in s ==> keep(x)
    ensures Where(s, keep) == s
  {
    if s != [] {
      assert s == [s[0]] + s[1..];
      WhereAll(s[1..], keep);
    }
  }

  lemma WhereTwice<T>(s: seq<T>, keep: T -> bool)
    ensures Where(Where(s, keep), keep) == Where(s, keep)
  {
    WhereAll(Where(s, keep), keep);
  }

  lemma {:induction false} WhereNone<T>(s: seq<T>, keep: T -> bool)
    requires forall x :: x in s ==> !keep(x)
    ensures Where(s, keep) == []
  {
    if s != [] {
      assert s == [s[0]] + s[1..];
      WhereNone(s[1..], keep);
    }
  }

  lemma {:induction false} WhereSmaller<T>(s: seq<T>, keep: T -> bool)
    ensures |Where(s, keep)| <= |s|
    ensures |Where(s, keep)| < |s| <==> exists x :: x in s && !keep(x)
  {
    if s != [] {
      WhereSmaller(s[1..], keep);
      assert s == [s[0]] + s[1..];
    }
  }

  lemma {:induction false} WhereAgrees<T>(s: seq<T>, p: T -> bool, q: T -> bool)
    requires forall x :: x in s ==> p(x) == q(x)
    ensures Where(s, p) == Where(s, q)
  {
    if s != [] {
      assert s == [s[0]] + s[1..];
      WhereAgrees(s[1..], p, q);
    }
  }

  /** Filtering by one condition and then another is filtering by both. */
  lemma {:induction false} WhereBoth<T>(s: seq<T>, p: T -> bool, q: T -> bool, both: T -> bool)
    requires forall x :: both(x) <==> p(x) && q(x)
    ensures Where(Where(s, p), q) == Where(s, both)
  {
    if s != [] {
      WhereBoth(s[1..], p, q, both);
      if p(s[0]) {
        WhereCons(s[0], Where(s[1..], p), q);
      } else {
        assert Where(s, p) == Where(s[1..], p) && Where(s, both) == Where(s[1..], both);
      }
    }
  }

  /** The first row kept is the first that meets the condition. */
  lemma {:induction false} WhereFirst<T>(s: seq<T>, keep: T -> bool, i: nat)
    requires i < |s| && keep(s[i]) && forall k :: 0 <= k < i ==> !keep(s[k])
    ensures Where(s, keep) != [] && Where(s, keep)[0] == s[i]
  {
    if i > 0 {
      WhereFirst(s[1..], keep, i - 1);
    }
  }

  lemma {:induction false} SomeIndex<T>(s: seq<T>, keep: T -> bool) returns (i: nat)
    requires Where(s, keep) != []
    ensures i < |s| && keep(s[i]) && forall k :: 0 <= k < i ==> !keep(s[k])
  {
    if keep(s[0]) {
      i := 0;
    } else {
      i := SomeIndex(s[1..], keep);
      i := i + 1;
    }
  }

  /** One row is kept exactly when one place holds such a row. */
  lemma {:induction false} WhereSole<T>(s: seq<T>, keep: T -> bool, i: nat)
    requires i < |s| && keep(s[i]) && forall k :: 0 <= k < |s| && k != i ==> !keep(s[k])
    ensures Where(s, keep) == [s[i]]
  {
    if i > 0 {
      WhereSole(s[1..], keep, i - 1);
    } else {
      forall x | x in s[1..] ensures !keep(x) {
        var k :| 0 <= k < |s[1..]| && s[1..][k] == x;
        assert s[k + 1] == x;
      }
      WhereNone(s[1..], keep);
    }
  }

  lemma {:induction false} SoleIndex<T>(s: seq<T>, keep: T -> bool) returns (i: nat)
    requires |Where(s, keep)| == 1
    ensures i < |s| && keep(s[i]) && forall k :: 0 <= k < |s| && k != i ==> !keep(s[k])
  {
    i := SomeIndex(s, keep);
    forall k | 0 <= k < |s| && k != i ensures !keep(s[k]) {
      if keep(s[k]) {
        TwoAreKept(s, keep, i, k);
      }
    }
  }

  lemma TwoAreKept<T>(s: seq<T>, keep: T -> bool, i: nat, k: nat)
    requires i < k < |s| && keep(s[i]) && keep(s[k])
    ensures |Where(s, keep)| >= 2
  {
    assert s == s[..k] + s[k..];
    WhereConcat(s[..k], s[k..], keep);
    assert s[..k][i] == s[i] && s[k..][0] == s[k];
    assert s[i] in Where(s[..k], keep) && s[k] in Where(s[k..], keep);
  }
}
