/** How decimal numbers compare as text. */
module TextOrder {
  import opened Decimals

  predicate LexLess(s: string, t: string) {
    t != "" && (s == "" || s[0] < t[0] || (s[0] == t[0] && LexLess(s[1..], t[1..])))
  }

  lemma {:induction false} LexConcat(a: string, b: string, c: string, d: string)
    requires |a| == |c|
    ensures LexLess(a + b, c + d) <==> LexLess(a, c) || (a == c && LexLess(b, d))
  {
    if a == "" {
      assert a + b == b && c + d == d;
    } else {
      assert (a + b)[1..] == a[1..] + b && (c + d)[1..] == c[1..] + d;
      LexConcat(a[1..], b, c[1..], d);
      assert a == c <==> a[0] == c[0] && a[1..] == c[1..];
    }
  }

  lemma {:induction false} LexIrreflexive(s: string)
    ensures !LexLess(s, s)
  {
    if s != "" {
      LexIrreflexive(s[1..]);
    }
  }

  lemma {:induction false} LexAsymmetric(s: string, t: string)
    ensures !(LexLess(s, t) && LexLess(t, s))
  {
    if s != "" && t != "" && s[0] == t[0] {
      LexAsymmetric(s[1..], t[1..]);
    }
  }

  // ------------------------------------------------------------ digit strings

  predicate IsDigit(c: char) {
    '0' <= c <= '9'
  }

  predicate AreDigits(s: string) {
    forall i :: 0 <= i < |s| ==> IsDigit(s[i])
  }

  function DigitCount(n: nat): nat {
    if n < 10 then 1 else 1 + DigitCount(n / 10)
  }

  /** How many digits `n` takes, padded to `w`. */
  function Width(n: nat, w: int): nat {
    if DigitCount(n) >= w then DigitCount(n) else w
  }

  function Padded(n: nat, w: int): string {
    ZeroPad(Digits(n), w)
  }

  lemma {:induction false} DigitsAreDigits(n: nat)
    ensures AreDigits(Digits(n)) && |Digits(n)| == DigitCount(n)
  {
    if n >= 10 {
      DigitsAreDigits(n / 10);
    }
  }

  lemma {:induction false} PaddingIsDigits(s: string, w: int)
    requires AreDigits(s)
    ensures AreDigits(ZeroPad(s, w))
    decreases w - |s|
  {
    if |s| < w {
      PaddingIsDigits("0" + s, w);
    }
  }

  lemma PaddedIs(n: nat, w: int)
    ensures var s := Padded(n, w);
            AreDigits(s) && |s| == Width(n, w) && NatValue(s) == n && s != ""
  {
    DigitsAreDigits(n);
    DigitsValue(n);
    PaddingIsDigits(Digits(n), w);
    ZeroPadValue(Digits(n), w);
  }

  /** `n` without its last `k` digits. */
  function Cut(n: nat, k: nat): nat {
    if k == 0 then n else Cut(n / 10, k - 1)
  }

  lemma {:induction false} ValueIsNat(s: string)
    requires AreDigits(s)
    ensures NatValue(s) >= 0
  {
    if s != "" {
      ValueIsNat(s[..|s| - 1]);
    }
  }

  lemma {:induction false} CutIs(s: string, k: nat)
    requires AreDigits(s) && k <= |s|
    ensures NatValue(s) >= 0 && NatValue(s[..|s| - k]) == Cut(NatValue(s), k)
  {
    ValueIsNat(s);
    if k == 0 {
      assert s[..|s|] == s;
    } else {
      var front := s[..|s| - 1];
      ValueIsNat(front);
      assert NatValue(s) / 10 == NatValue(front);
      CutIs(front, k - 1);
      assert front[..|front| - (k - 1)] == s[..|s| - k];
    }
  }

  /** Digit strings of one length compare as their values do. */
  lemma {:induction false} SameLengthOrder(s: string, t: string)
    requires AreDigits(s) && AreDigits(t) && |s| == |t|
    ensures LexLess(s, t) <==> NatValue(s) < NatValue(t)
    ensures s == t <==> NatValue(s) == NatValue(t)
  {
    if s != "" {
      var p, q, c, d := s[..|s| - 1], t[..|t| - 1], s[|s| - 1], t[|t| - 1];
      assert s == p + [c] && t == q + [d];
      SameLengthOrder(p, q);
      LexConcat(p, [c], q, [d]);
      OneChar(c, d);
      LastDigit(NatValue(p), c as int - '0' as int, NatValue(q), d as int - '0' as int);
      assert s == t <==> p == q && c == d;
    }
  }

  lemma OneChar(c: char, d: char)
    ensures LexLess([c], [d]) <==> c < d
  {
    assert [c][1..] == "" && [d][1..] == "";
  }

  lemma LastDigit(m: int, a: int, n: int, b: int)
    requires 0 <= a < 10 && 0 <= b < 10
    ensures m * 10 + a < n * 10 + b <==> m < n || (m == n && a < b)
    ensures m * 10 + a == n * 10 + b <==> m == n && a == b
  {
  }

  /** Otherwise the longer one is compared by as many leading digits, and loses a tie. */
  predicate TextLess(m: nat, n: nat, w: int) {
    var a, b := Width(m, w), Width(n, w);
    if a == b then m < n else if a < b then m <= Cut(n, b - a) else Cut(m, a - b) < n
  }

  lemma PaddedOrder(m: nat, n: nat, w: int)
    ensures LexLess(Padded(m, w), Padded(n, w)) <==> TextLess(m, n, w)
  {
    var s, t := Padded(m, w), Padded(n, w);
    PaddedIs(m, w);
    PaddedIs(n, w);
    if |s| == |t| {
      SameLengthOrder(s, t);
    } else if |s| < |t| {
      var p, rest := t[..|s|], t[|s|..];
      assert s == s + "" && t == p + rest;
      LexConcat(s, "", p, rest);
      SameLengthOrder(s, p);
      CutIs(t, |t| - |s|);
    } else {
      var p, rest := s[..|t|], s[|t|..];
      assert t == t + "" && s == p + rest;
      LexConcat(p, rest, t, "");
      SameLengthOrder(p, t);
      CutIs(s, |s| - |t|);
    }
  }

  /** Distinct digit strings followed by a dash compare as they do alone. */
  lemma {:induction false} DigitsThenDash(s: string, x: string, t: string, y: string)
    requires AreDigits(s) && AreDigits(t) && s != t
    ensures LexLess(s + "-" + x, t + "-" + y) <==> LexLess(s, t)
  {
    var a, b := s + "-" + x, t + "-" + y;
    if s == "" {
      assert a[0] == '-' && b[0] == t[0];
    } else if t == "" {
      assert b[0] == '-' && a[0] == s[0];
    } else {
      assert a[0] == s[0] && b[0] == t[0];
      assert a[1..] == s[1..] + "-" + x && b[1..] == t[1..] + "-" + y;
      if s[0] == t[0] {
        assert s == [s[0]] + s[1..] && t == [t[0]] + t[1..];
        DigitsThenDash(s[1..], x, t[1..], y);
      }
    }
  }

  // ------------------------------------------------------------- signed years

  /** `y` sorts before `z`, written by `{:04}`: the sign is a character like any other, and sorts before
      the digits. */
  predicate YearsSort(y: int, z: int) {
    if y < 0 && z < 0 then TextLess(-y, -z, 3)
    else if y < 0 || z < 0 then y < 0
    else TextLess(y, z, 4)
  }

  lemma YearText(y: int)
    ensures Decimal(y, 4) == if y >= 0 then Padded(y, 4) else "-" + Padded(-y, 3)
  {
  }

  lemma YearTextOrder(y: int, z: int)
    ensures LexLess(Decimal(y, 4), Decimal(z, 4)) <==> YearsSort(y, z)
  {
    YearText(y);
    YearText(z);
    if y < 0 && z < 0 {
      LexConcat("-", Padded(-y, 3), "-", Padded(-z, 3));
      LexIrreflexive("-");
      PaddedOrder(-y, -z, 3);
    } else if y < 0 {
      PaddedIs(z, 4);
    } else if z < 0 {
      PaddedIs(y, 4);
    } else {
      PaddedOrder(y, z, 4);
    }
  }

  /** Distinct years followed by a dash compare as they do alone. */
  lemma YearThenDash(y: int, x: string, z: int, w: string)
    requires y != z
    ensures LexLess(Decimal(y, 4) + "-" + x, Decimal(z, 4) + "-" + w) <==> YearsSort(y, z)
  {
    YearTextOrder(y, z);
    YearText(y);
    YearText(z);
    if y >= 0 && z >= 0 {
      PaddedIs(y, 4);
      PaddedIs(z, 4);
      DigitsThenDash(Padded(y, 4), x, Padded(z, 4), w);
    } else if y < 0 && z < 0 {
      NegativeThenDash(-y, x, -z, w);
    } else {
      MixedThenDash(y, x, z, w);
    }
  }

  lemma NegativeThenDash(m: nat, x: string, n: nat, w: string)
    requires m != n
    ensures LexLess("-" + Padded(m, 3) + "-" + x, "-" + Padded(n, 3) + "-" + w) <==> TextLess(m, n, 3)
  {
    PaddedIs(m, 3);
    PaddedIs(n, 3);
    PaddedOrder(m, n, 3);
    DigitsThenDash(Padded(m, 3), x, Padded(n, 3), w);
    var a, b := Padded(m, 3) + "-" + x, Padded(n, 3) + "-" + w;
    assert "-" + Padded(m, 3) + "-" + x == "-" + a && "-" + Padded(n, 3) + "-" + w == "-" + b;
    LexConcat("-", a, "-", b);
    LexIrreflexive("-");
  }

  lemma MixedThenDash(y: int, x: string, z: int, w: string)
    requires (y < 0) != (z < 0)
    ensures LexLess(Decimal(y, 4) + "-" + x, Decimal(z, 4) + "-" + w) <==> y < 0
  {
    YearText(y);
    YearText(z);
    if y < 0 {
      PaddedIs(z, 4);
      assert (Decimal(y, 4) + "-" + x)[0] == '-' && (Decimal(z, 4) + "-" + w)[0] == Padded(z, 4)[0];
    } else {
      PaddedIs(y, 4);
      assert (Decimal(z, 4) + "-" + w)[0] == '-' && (Decimal(y, 4) + "-" + x)[0] == Padded(y, 4)[0];
    }
  }

  lemma {:induction false} CountBounds(n: nat)
    ensures n <= 999 ==> DigitCount(n) <= 3
    ensures 1000 <= n <= 9999 ==> DigitCount(n) == 4
    ensures 10000 <= n <= 99999 ==> DigitCount(n) == 5
  {
    assert n >= 10 ==> DigitCount(n) == 1 + DigitCount(n / 10);
    assert n >= 100 ==> DigitCount(n / 10) == 1 + DigitCount(n / 100);
    assert n >= 1000 ==> DigitCount(n / 100) == 1 + DigitCount(n / 1000);
    assert n >= 10000 ==> DigitCount(n / 1000) == 1 + DigitCount(n / 10000);
  }

  /** What that comes to, year by year: in order within 0000-9999, within 10000-99999, and from a negative
      year to any other; in reverse order within -999 to -1; and from four digits to five by the leading four. */
  lemma YearRanges(y: int, z: int)
    requires y < z
    ensures 0 <= y && z <= 9999 ==> YearsSort(y, z)
    ensures 10000 <= y && z <= 99999 ==> YearsSort(y, z)
    ensures y < 0 <= z ==> YearsSort(y, z)
    ensures -999 <= y && z < 0 ==> !YearsSort(y, z)
    ensures 0 <= y <= 9999 < z <= 99999 ==> (YearsSort(y, z) <==> y <= z / 10)
  {
    if y >= 0 {
      CountBounds(y);
    } else {
      CountBounds(-y);
    }
    if z >= 0 {
      CountBounds(z);
      assert Cut(z, 1) == z / 10;
    } else {
      CountBounds(-z);
    }
  }
}
