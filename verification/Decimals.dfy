/** Rust's decimal formatting of integers. */
module Decimals {

  function Digit(n: int): char
    requires 0 <= n < 10
  {
    '0' + n as char
  }

  function Digits(n: nat): string {
    if n < 10 then [Digit(n)] else Digits(n / 10) + [Digit(n % 10)]
  }

  function ZeroPad(s: string, width: int): string
    decreases width - |s|
  {
    if |s| >= width then s else ZeroPad("0" + s, width)
  }

  /** Rust's `{n:0width}`: the sign counts towards the width. */
  function Decimal(n: int, width: int): string {
    if n >= 0 then ZeroPad(Digits(n), width) else "-" + ZeroPad(Digits(-n), width - 1)
  }

  function NatValue(s: string): int {
    if s == "" then 0 else NatValue(s[..|s| - 1]) * 10 + (s[|s| - 1] as int - '0' as int)
  }

  function IntValue(s: string): int {
    if s != "" && s[0] == '-' then -NatValue(s[1..]) else NatValue(s)
  }

  lemma {:induction false} DigitsValue(n: nat)
    ensures Digits(n) != "" && NatValue(Digits(n)) == n
    ensures Digits(n)[0] != '-'
  {
    if n >= 10 {
      DigitsValue(n / 10);
      assert Digits(n)[..|Digits(n)| - 1] == Digits(n / 10);
    } else {
      assert Digits(n)[..0] == "";
    }
  }

  lemma {:induction false} LeadingZero(s: string)
    ensures NatValue("0" + s) == NatValue(s)
  {
    var z := "0" + s;
    if s == "" {
      assert z[..|z| - 1] == "";
    } else {
      assert z[..|z| - 1] == "0" + s[..|s| - 1];
      LeadingZero(s[..|s| - 1]);
    }
  }

  lemma {:induction false} ZeroPadValue(s: string, width: int)
    requires s != "" && s[0] != '-'
    ensures NatValue(ZeroPad(s, width)) == NatValue(s)
    ensures |ZeroPad(s, width)| == (if |s| >= width then |s| else width)
    ensures ZeroPad(s, width)[0] != '-'
    decreases width - |s|
  {
    if |s| < width {
      LeadingZero(s);
      ZeroPadValue("0" + s, width);
    }
  }

  lemma DecimalValue(n: int, width: int)
    ensures IntValue(Decimal(n, width)) == n
  {
    DigitsValue(if n >= 0 then n else -n);
    if n >= 0 {
      ZeroPadValue(Digits(n), width);
    } else {
      ZeroPadValue(Digits(-n), width - 1);
      assert Decimal(n, width)[1..] == ZeroPad(Digits(-n), width - 1);
    }
  }
}
