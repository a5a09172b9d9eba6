/** SQL's `ORDER BY ts DESC, name ASC LIMIT n`. */
module NamedRows {
  import opened Bounded
  import opened TextOrder

  /** `a` sorts before `b`. */
  predicate Precedes<P>(name: P -> string, a: Stamped<P>, b: Stamped<P>) {
    a.ts > b.ts || (a.ts == b.ts && LexLess(name(a.what), name(b.what)))
  }

  ghost predicate InOrder<P>(name: P -> string, s: seq<Stamped<P>>) {
    forall i, j :: 0 <= i < j < |s| ==> !Precedes(name, s[j], s[i])
  }

  /** `kept` is in order, and no row left out sorts before one of it. */
  ghost predicate KeepsFirst<P(!new)>(name: P -> string, all: seq<Stamped<P>>, kept: seq<Stamped<P>>) {
    && InOrder(name, kept) && multiset(kept) <= multiset(all)
    && forall x, y :: x in multiset(all) - multiset(kept) && y in kept ==> !Precedes(name, x, y)
  }

  function InsertNamed<P>(name: P -> string, x: Stamped<P>, s: seq<Stamped<P>>): seq<Stamped<P>> {
    if s == [] || !Precedes(name, s[0], x) then [x] + s else [s[0]] + InsertNamed(name, x, s[1..])
  }

  function SortNamed<P>(name: P -> string, s: seq<Stamped<P>>): seq<Stamped<P>> {
    if s == [] then [] else InsertNamed(name, s[0], SortNamed(name, s[1..]))
  }

  lemma {:induction false} NotLessChain(a: string, b: string, c: string)
    requires !LexLess(b, a) && !LexLess(c, b)
    ensures !LexLess(c, a)
  {
    if a != "" && a[0] == b[0] == c[0] {
      NotLessChain(a[1..], b[1..], c[1..]);
    }
  }

  lemma NotBefore<P>(name: P -> string, a: Stamped<P>, b: Stamped<P>, c: Stamped<P>)
    requires !Precedes(name, b, a) && !Precedes(name, c, b)
    ensures !Precedes(name, c, a)
  {
    if a.ts == c.ts {
      NotLessChain(name(a.what), name(b.what), name(c.what));
    }
  }

  lemma {:induction false} InsertNamedMultiset<P>(name: P -> string, x: Stamped<P>, s: seq<Stamped<P>>)
    ensures multiset(InsertNamed(name, x, s)) == multiset{x} + multiset(s)
  {
    if s != [] && Precedes(name, s[0], x) {
      InsertNamedMultiset(name, x, s[1..]);
      assert s == [s[0]] + s[1..];
    } else {
      assert InsertNamed(name, x, s) == [x] + s;
    }
  }

  /** A row before an ordered sequence that none of it precedes. */
  lemma InOrderCons<P>(name: P -> string, x: Stamped<P>, s: seq<Stamped<P>>)
    requires InOrder(name, s) && forall y :: y in s ==> !Precedes(name, y, x)
    ensures InOrder(name, [x] + s)
  {
    var t := [x] + s;
    forall i, j | 0 <= i < j < |t| ensures !Precedes(name, t[j], t[i]) {
      assert t[j] == s[j - 1] && s[j - 1] in s;
      if i > 0 {
        assert t[i] == s[i - 1];
      }
    }
  }

  lemma {:induction false} InsertNamedSorted<P>(name: P -> string, x: Stamped<P>, s: seq<Stamped<P>>)
    requires InOrder(name, s)
    ensures InOrder(name, InsertNamed(name, x, s))
  {
    if s == [] {
    } else if !Precedes(name, s[0], x) {
      forall y | y in s ensures !Precedes(name, y, x) {
        var k :| 0 <= k < |s| && s[k] == y;
        if k > 0 {
          NotBefore(name, x, s[0], y);
        }
      }
      InOrderCons(name, x, s);
    } else {
      var rest := InsertNamed(name, x, s[1..]);
      InsertNamedSorted(name, x, s[1..]);
      InsertNamedMultiset(name, x, s[1..]);
      LexAsymmetric(name(x.what), name(s[0].what));
      forall y | y in rest ensures !Precedes(name, y, s[0]) {
        assert y in multiset(rest);
        if y != x {
          var k :| 0 <= k < |s[1..]| && s[1..][k] == y;
          assert s[k + 1] == y;
        }
      }
      InOrderCons(name, s[0], rest);
    }
  }

  lemma {:induction false} SortNamedSorts<P>(name: P -> string, s: seq<Stamped<P>>)
    ensures InOrder(name, SortNamed(name, s)) && multiset(SortNamed(name, s)) == multiset(s)
  {
    if s != [] {
      SortNamedSorts(name, s[1..]);
      InsertNamedSorted(name, s[0], SortNamed(name, s[1..]));
      InsertNamedMultiset(name, s[0], SortNamed(name, s[1..]));
      assert s == [s[0]] + s[1..];
    }
  }

  lemma PrefixInOrder<P>(name: P -> string, s: seq<Stamped<P>>, n: nat, x: Stamped<P>, y: Stamped<P>)
    requires InOrder(name, s) && n <= |s| && x in s[n..] && y in s[..n]
    ensures !Precedes(name, x, y)
  {
    var j :| 0 <= j < |s[n..]| && s[n..][j] == x;
    var i :| 0 <= i < n && s[..n][i] == y;
    assert s[n + j] == x && s[i] == y;
  }

  /** The first rows of the first rows are the first rows. */
  lemma FirstOfFirst<P(!new)>(name: P -> string, all: seq<Stamped<P>>, cut: seq<Stamped<P>>, n: nat)
    requires KeepsFirst(name, all, cut) && n <= |cut|
    ensures KeepsFirst(name, all, cut[..n])
  {
    var kept, rest := cut[..n], cut[n..];
    assert cut == kept + rest;
    assert multiset(cut) == multiset(kept) + multiset(rest);
    forall x, y | x in multiset(all) - multiset(kept) && y in kept ensures !Precedes(name, x, y) {
      if x in multiset(all) - multiset(cut) {
        assert y in cut;
      } else {
        assert x in multiset(rest);
        PrefixInOrder(name, cut, n, x, y);
      }
    }
  }

  lemma FirstIsNewest<P(!new)>(name: P -> string, all: seq<Stamped<P>>, cut: seq<Stamped<P>>)
    requires KeepsFirst(name, all, cut)
    ensures NewestFirst(cut) && KeepsNewest(all, cut)
  {
    forall i, j | 0 <= i < j < |cut| ensures cut[i].ts >= cut[j].ts {
      assert !Precedes(name, cut[j], cut[i]);
    }
    forall x, y | x in multiset(all) - multiset(cut) && y in cut ensures x.ts <= y.ts {
      assert !Precedes(name, x, y);
    }
  }

  method OrderByTsDescNameLimit<P(!new)>(all: seq<Stamped<P>>, name: P -> string, n: int)
    returns (cut: seq<Stamped<P>>)
    ensures IsCut(all, n, cut) && KeepsFirst(name, all, cut)
  {
    var sorted := SortNamed(name, all);
    SortNamedSorts(name, all);
    SameSize(sorted, all);
    cut := if n < 0 then sorted else sorted[..Min(n, |sorted|)];
    FirstOfFirst(name, all, sorted, |cut|);
    assert cut == sorted[..|cut|];
    FirstIsNewest(name, all, cut);
  }

  /** What a reply's reversed collection is of the rows behind it. */
  lemma NewestIsFirst<P(!new)>(
    name: P -> string, all: seq<Stamped<P>>, cut: seq<Stamped<P>>, limit: nat, b: Bounded<P>)
    requires KeepsFirst(name, all, cut) && b.items == Reverse(cut[..Min(limit, |cut|)])
    ensures KeepsFirst(name, all, Reverse(b.items))
  {
    FirstOfFirst(name, all, cut, Min(limit, |cut|));
    assert Reverse(b.items) == cut[..Min(limit, |cut|)];
  }
}
