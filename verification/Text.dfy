/** The Rust string operations the code leans on: `trim`, `lines`, `split_once`, ASCII case. */
module Text {
  import opened Wrappers

  // ------------------------------------------------------------------- trim

  /** `char::is_whitespace`: Unicode `White_Space`. */
  predicate IsWhitespace(c: char) {
    var n := c as int;
    9 <= n <= 13 || n == 0x20 || n == 0x85 || n == 0xA0 || n == 0x1680 || 0x2000 <= n <= 0x200A
    || n == 0x2028 || n == 0x2029 || n == 0x202F || n == 0x205F || n == 0x3000
  }

  predicate IsQuote(c: char) {
    c == '"' || c == '\''
  }

  predicate IsDash(c: char) {
    c == '-'
  }

  function TrimStart(s: string, p: char -> bool): string {
    if s != "" && p(s[0]) then TrimStart(s[1..], p) else s
  }

  function TrimEnd(s: string, p: char -> bool): string {
    if s != "" && p(s[|s| - 1]) then TrimEnd(s[..|s| - 1], p) else s
  }

  /** `trim_matches`. */
  function TrimMatches(s: string, p: char -> bool): string {
    TrimEnd(TrimStart(s, p), p)
  }

  function Trim(s: string): string {
    TrimMatches(s, IsWhitespace)
  }

  /** Nothing left to trim. */
  predicate IsTrimmed(s: string, p: char -> bool) {
    s == "" || (!p(s[0]) && !p(s[|s| - 1]))
  }

  lemma {:induction false} TrimStartIs(s: string, p: char -> bool)
    ensures TrimStart(s, p) == "" || !p(TrimStart(s, p)[0])
    ensures |TrimStart(s, p)| <= |s| && TrimStart(s, p) == s[|s| - |TrimStart(s, p)|..]
  {
    if s != "" && p(s[0]) {
      TrimStartIs(s[1..], p);
    }
  }

  lemma {:induction false} TrimEndIs(s: string, p: char -> bool)
    ensures TrimEnd(s, p) == "" || !p(TrimEnd(s, p)[|TrimEnd(s, p)| - 1])
    ensures TrimEnd(s, p) <= s
  {
    if s != "" && p(s[|s| - 1]) {
      TrimEndIs(s[..|s| - 1], p);
    }
  }

  /** Only what `p` takes is trimmed, from either end. */
  lemma {:induction false} StartIsTrimmed(s: string, p: char -> bool)
    ensures |TrimStart(s, p)| <= |s| && forall i :: 0 <= i < |s| - |TrimStart(s, p)| ==> p(s[i])
  {
    if s != "" && p(s[0]) {
      StartIsTrimmed(s[1..], p);
      assert forall i :: 0 <= i < |s[1..]| ==> s[1..][i] == s[i + 1];
    }
  }

  lemma {:induction false} EndIsTrimmed(s: string, p: char -> bool)
    ensures |TrimEnd(s, p)| <= |s| && forall i :: |TrimEnd(s, p)| <= i < |s| ==> p(s[i])
  {
    if s != "" && p(s[|s| - 1]) {
      EndIsTrimmed(s[..|s| - 1], p);
    }
  }

  /** What trimming leaves is a part of the string, without `p` at its ends, and all around it is of `p`. */
  lemma TrimIsExact(s: string, p: char -> bool) returns (from: nat)
    ensures var t := TrimMatches(s, p);
            && from + |t| <= |s| && t == s[from..from + |t|] && IsTrimmed(t, p)
            && forall i :: 0 <= i < |s| && (i < from || from + |t| <= i) ==> p(s[i])
  {
    var t := TrimStart(s, p);
    TrimStartIs(s, p);
    StartIsTrimmed(s, p);
    TrimEndIs(t, p);
    EndIsTrimmed(t, p);
    TrimMatchesIs(s, p);
    from := |s| - |t|;
    assert forall i :: 0 <= i < |t| ==> t[i] == s[from + i];
  }

  /** Trimming leaves a trimmed string, and changes only strings that were not trimmed. */
  lemma TrimMatchesIs(s: string, p: char -> bool)
    ensures IsTrimmed(TrimMatches(s, p), p)
    ensures TrimMatches(s, p) == s <==> IsTrimmed(s, p)
    ensures forall c :: c in TrimMatches(s, p) ==> c in s
  {
    TrimStartIs(s, p);
    TrimEndIs(TrimStart(s, p), p);
  }

  /** One more trimmable character at either end is trimmed too. */
  lemma {:induction false} TrimAppend(s: string, c: char, p: char -> bool)
    requires p(c)
    ensures TrimMatches(s + [c], p) == TrimMatches(s, p)
  {
    var t := s + [c];
    assert t[..|t| - 1] == s;
    if s == "" {
      assert t[1..] == "";
    } else if p(s[0]) {
      assert t[1..] == s[1..] + [c];
      TrimAppend(s[1..], c, p);
    } else {
      assert TrimStart(t, p) == t && TrimStart(s, p) == s;
    }
  }

  lemma TrimPrepend(s: string, c: char, p: char -> bool)
    requires p(c)
    ensures TrimMatches([c] + s, p) == TrimMatches(s, p)
  {
    assert ([c] + s)[1..] == s;
  }

  /** A string that is all trimmable trims to nothing, and only such a string does. */
  lemma {:induction false} TrimsToNothing(s: string, p: char -> bool)
    ensures TrimMatches(s, p) == "" <==> forall c :: c in s ==> p(c)
  {
    if s != "" {
      if p(s[0]) {
        TrimsToNothing(s[1..], p);
        assert s == [s[0]] + s[1..];
      } else {
        assert s[0] in s;
        TrimEndKeeps(s, p);
      }
    }
  }

  lemma {:induction false} TrimEndKeeps(s: string, p: char -> bool)
    requires s != "" && !p(s[0])
    ensures TrimEnd(s, p) != "" && TrimEnd(s, p)[0] == s[0]
  {
    if p(s[|s| - 1]) {
      TrimEndKeeps(s[..|s| - 1], p);
    }
  }

  /** Text after a fixed head trims at its end only. */
  lemma {:induction false} TrimAfterHead(head: string, rest: string, p: char -> bool)
    requires head != "" && IsTrimmed(head, p)
    ensures TrimMatches(head + rest, p) == head + TrimEnd(rest, p)
  {
    var t := head + rest;
    assert TrimStart(t, p) == t;
    if rest == "" {
      assert t == head;
    } else if p(rest[|rest| - 1]) {
      assert t[..|t| - 1] == head + rest[..|rest| - 1];
      TrimAfterHead(head, rest[..|rest| - 1], p);
      assert TrimStart(head + rest[..|rest| - 1], p) == head + rest[..|rest| - 1];
    }
  }

  lemma {:induction false} TrimStartEndCommute(s: string, p: char -> bool)
    ensures TrimMatches(TrimEnd(s, p), p) == TrimMatches(s, p)
  {
    if s != "" && p(s[|s| - 1]) {
      TrimStartEndCommute(s[..|s| - 1], p);
      assert s == s[..|s| - 1] + [s[|s| - 1]];
      TrimAppend(s[..|s| - 1], s[|s| - 1], p);
    }
  }

  // ------------------------------------------------------------------ lines

  function IndexOf<T(==)>(s: seq<T>, c: T): (i: int)
    ensures -1 <= i < |s|
    ensures i >= 0 ==> s[i] == c && c !in s[..i]
    ensures i < 0 ==> c !in s
  {
    if s == [] then -1
    else if s[0] == c then 0
    else
      var i := IndexOf(s[1..], c);
      if i < 0 then -1
      else
        assert s[..i + 1] == [s[0]] + s[1..][..i];
        i + 1
  }

  function StripCr(s: string): string {
    if s != "" && s[|s| - 1] == '\r' then s[..|s| - 1] else s
  }

  predicate EndsInCr(s: string) {
    s != "" && s[|s| - 1] == '\r'
  }

  /** `str::lines`: a newline ends a line, one carriage return before it goes too, and a last line
      needs no newline. */
  function Lines(s: string): seq<string>
    decreases |s|
  {
    if s == "" then []
    else
      var i := IndexOf(s, '\n');
      if i < 0 then [s] else [StripCr(s[..i])] + Lines(s[i + 1..])
  }

  /** Every line followed by a newline. */
  function Unlines(ls: seq<string>): string {
    if ls == [] then "" else ls[0] + "\n" + Unlines(ls[1..])
  }

  predicate NoNewline(s: string) {
    '\n' !in s
  }

  predicate AreLines(ls: seq<string>) {
    forall i :: 0 <= i < |ls| ==> NoNewline(ls[i])
  }

  function StripCrs(ls: seq<string>): (r: seq<string>)
    ensures |r| == |ls| && forall i :: 0 <= i < |ls| ==> r[i] == StripCr(ls[i])
  {
    seq(|ls|, i requires 0 <= i < |ls| => StripCr(ls[i]))
  }

  lemma StripCrsConcat(a: seq<string>, b: seq<string>)
    ensures StripCrs(a + b) == StripCrs(a) + StripCrs(b)
  {
  }

  /** Lines on both sides are lines. */
  lemma AreLinesConcat(a: seq<string>, b: seq<string>)
    requires AreLines(a) && AreLines(b)
    ensures AreLines(a + b)
  {
  }

  lemma {:induction false} LinesAreLines(s: string)
    ensures AreLines(Lines(s))
    decreases |s|
  {
    if s != "" {
      var i := IndexOf(s, '\n');
      if i >= 0 {
        var head, rest := StripCr(s[..i]), Lines(s[i + 1..]);
        LinesAreLines(s[i + 1..]);
        assert NoNewline(head);
        assert Lines(s) == [head] + rest;
      } else {
        assert Lines(s) == [s];
      }
    }
  }

  lemma {:induction false} IndexOfIs<T>(s: seq<T>, c: T, n: nat)
    requires n < |s| && s[n] == c && c !in s[..n]
    ensures IndexOf(s, c) == n
  {
    if n > 0 {
      assert s[..n] == [s[0]] + s[1..][..n - 1];
      IndexOfIs(s[1..], c, n - 1);
    }
  }

  lemma IndexOfFirst(l: string, rest: string)
    requires NoNewline(l)
    ensures IndexOf(l + "\n" + rest, '\n') == |l|
  {
    var t := l + "\n" + rest;
    assert t[..|l|] == l;
    IndexOfIs(t, '\n', |l|);
  }

  lemma LinesCons(l: string, rest: string)
    requires NoNewline(l)
    ensures Lines(l + "\n" + rest) == [StripCr(l)] + Lines(rest)
  {
    var t := l + "\n" + rest;
    IndexOfFirst(l, rest);
    assert t[..|l|] == l && t[|l| + 1..] == rest;
  }

  /** Reading written lines back loses at most one carriage return per line. */
  lemma {:induction false} LinesOfUnlines(ls: seq<string>)
    requires AreLines(ls)
    ensures Lines(Unlines(ls)) == StripCrs(ls)
  {
    if ls != [] {
      LinesCons(ls[0], Unlines(ls[1..]));
      LinesOfUnlines(ls[1..]);
      assert StripCrs(ls) == [StripCr(ls[0])] + StripCrs(ls[1..]);
    }
  }

  predicate SomeEndsInCr(ls: seq<string>) {
    exists i :: 0 <= i < |ls| && EndsInCr(ls[i])
  }

  lemma SomeEndsInCrCons(ls: seq<string>)
    requires ls != []
    ensures SomeEndsInCr(ls) <==> EndsInCr(ls[0]) || SomeEndsInCr(ls[1..])
  {
    if SomeEndsInCr(ls[1..]) {
      var i :| 0 <= i < |ls[1..]| && EndsInCr(ls[1..][i]);
      assert EndsInCr(ls[i + 1]);
    }
    if SomeEndsInCr(ls) && !EndsInCr(ls[0]) {
      var i :| 0 <= i < |ls| && EndsInCr(ls[i]);
      assert EndsInCr(ls[1..][i - 1]);
    }
  }

  /** Losing a carriage return shortens the text. */
  lemma {:induction false} UnlinesLength(ls: seq<string>)
    ensures |Unlines(StripCrs(ls))| <= |Unlines(ls)|
    ensures |Unlines(StripCrs(ls))| == |Unlines(ls)| <==> !SomeEndsInCr(ls)
  {
    if ls != [] {
      UnlinesLength(ls[1..]);
      assert StripCrs(ls) == [StripCr(ls[0])] + StripCrs(ls[1..]);
      SomeEndsInCrCons(ls);
    }
  }

  /** A line's own carriage return is whitespace. */
  lemma TrimIgnoresCr(s: string)
    ensures Trim(StripCr(s)) == Trim(s)
  {
    if EndsInCr(s) {
      assert s == s[..|s| - 1] + ['\r'];
      TrimAppend(s[..|s| - 1], '\r', IsWhitespace);
    }
  }

  // ------------------------------------------------------------- other pieces

  predicate StartsWith(s: string, prefix: string) {
    prefix <= s
  }

  predicate EndsWith(s: string, suffix: string) {
    |suffix| <= |s| && s[|s| - |suffix|..] == suffix
  }

  function StripPrefix(s: string, prefix: string): Option<string> {
    if prefix <= s then Some(s[|prefix|..]) else None
  }

  /** `split_once`. */
  function SplitOnce(s: string, c: char): Option<(string, string)> {
    var i := IndexOf(s, c);
    if i < 0 then None else Some((s[..i], s[i + 1..]))
  }

  function ToLower(c: char): char {
    if 'A' <= c <= 'Z' then (c as int + 32) as char else c
  }

  /** `to_ascii_lowercase`. */
  function Lower(s: string): (r: string)
    ensures |r| == |s| && forall i :: 0 <= i < |s| ==> r[i] == ToLower(s[i])
  {
    seq(|s|, i requires 0 <= i < |s| => ToLower(s[i]))
  }

  predicate EqIgnoreCase(s: string, t: string) {
    Lower(s) == Lower(t)
  }

  predicate IsAlphanumeric(c: char) {
    'a' <= c <= 'z' || 'A' <= c <= 'Z' || '0' <= c <= '9'
  }

  lemma SplitOnceAt(a: string, c: char, b: string)
    requires c !in a
    ensures SplitOnce(a + [c] + b, c) == Some((a, b))
  {
    var s := a + [c] + b;
    assert s[..|a|] == a && s[|a| + 1..] == b;
    IndexOfIs(s, c, |a|);
  }

  /** `split`: always at least one piece. */
  function SplitAll<T(==)>(s: seq<T>, c: T): (r: seq<seq<T>>)
    ensures r != []
    decreases |s|
  {
    var i := IndexOf(s, c);
    if i < 0 then [s] else [s[..i]] + SplitAll(s[i + 1..], c)
  }

  lemma SplitAllAt<T>(a: seq<T>, c: T, b: seq<T>)
    requires c !in a
    ensures SplitAll(a + [c] + b, c) == [a] + SplitAll(b, c)
  {
    var s := a + [c] + b;
    assert s[..|a|] == a && s[|a| + 1..] == b;
    IndexOfIs(s, c, |a|);
  }

  lemma {:induction false} SplitAllConcat<T>(a: seq<T>, c: T, b: seq<T>)
    ensures SplitAll(a + [c] + b, c) == SplitAll(a, c) + SplitAll(b, c)
    decreases |a|
  {
    var i := IndexOf(a, c);
    if i < 0 {
      SplitAllAt(a, c, b);
    } else {
      var rest := a[i + 1..];
      assert a + [c] + b == a[..i] + [c] + (rest + [c] + b);
      SplitAllAt(a[..i], c, rest + [c] + b);
      SplitAllConcat(rest, c, b);
    }
  }

  /** `join`. */
  function Join(ls: seq<string>, sep: string): string {
    if ls == [] then "" else if |ls| == 1 then ls[0] else ls[0] + sep + Join(ls[1..], sep)
  }

  lemma {:induction false} JoinIsUnlines(ls: seq<string>)
    requires ls != []
    ensures Join(ls, "\n") + "\n" == Unlines(ls)
  {
    if |ls| > 1 {
      JoinIsUnlines(ls[1..]);
      assert ls[0] + "\n" + Join(ls[1..], "\n") + "\n" == ls[0] + "\n" + (Join(ls[1..], "\n") + "\n");
    } else {
      assert ls[1..] == [];
    }
  }
}
