/** `to_rfc3339_utc`: whole-second UTC timestamps. */
module Rfc3339 {
  import opened Calendar
  import opened Decimals
  import opened TextOrder

  datatype Clock = Clock(date: Date, hour: int, minute: int, second: int)

  // ---------------------------------------------------------------- the code

  function Fields(epoch: int): Clock {
    var secs := epoch % 86400;
    Clock(CivilFromDays(epoch / 86400), secs / 3600, secs % 3600 / 60, secs % 60)
  }

  function Format(c: Clock): string {
    Decimal(c.date.year, 4) + "-" + AfterYear(c)
  }

  /** What follows the year and its dash. */
  function AfterYear(c: Clock): string {
    Decimal(c.date.month, 2) + "-" + Decimal(c.date.day, 2) + "T"
    + Decimal(c.hour, 2) + ":" + Decimal(c.minute, 2) + ":" + Decimal(c.second, 2) + "Z"
  }

  function ToRfc3339Utc(epoch: int): string {
    Format(Fields(epoch))
  }

  // -------------------------------------------------------------- the reader

  /** The time-hour, time-minute and time-second of section 5.6 of RFC 3339, leap seconds aside. */
  predicate ValidClock(c: Clock) {
    ValidDate(c.date) && 0 <= c.hour <= 23 && 0 <= c.minute <= 59 && 0 <= c.second <= 59
  }

  function Instant(c: Clock): int {
    DayNumber(c.date) * 86400 + c.hour * 3600 + c.minute * 60 + c.second
  }

  /** Reads a timestamp by position from its end, so that years of any width read back. */
  function ReadClock(s: string): Clock
    requires |s| >= 16
  {
    var t := s[|s| - 16..];
    Clock(Date(IntValue(s[..|s| - 16]), NatValue(t[1..3]), NatValue(t[4..6])),
          NatValue(t[7..9]), NatValue(t[10..12]), NatValue(t[13..15]))
  }

  /** The order of field lists. */
  predicate FieldsLess(s: seq<int>, t: seq<int>) {
    t != [] && (s == [] || s[0] < t[0] || (s[0] == t[0] && FieldsLess(s[1..], t[1..])))
  }

  // ------------------------------------------------------------------ lemmas

  lemma ClockSplits(secs: int)
    requires 0 <= secs < 86400
    ensures 0 <= secs / 3600 <= 23 && 0 <= secs % 3600 / 60 <= 59 && 0 <= secs % 60 <= 59
    ensures secs / 3600 * 3600 + secs % 3600 / 60 * 60 + secs % 60 == secs
  {
    var rest := secs % 3600;
    assert secs == 60 * (60 * (secs / 3600) + rest / 60) + rest % 60;
  }

  /** The fields are a valid clock reading of exactly the given instant, before 1970 included. */
  lemma FieldsAreTheInstant(epoch: int)
    ensures ValidClock(Fields(epoch)) && Instant(Fields(epoch)) == epoch
  {
    CivilCounts(epoch / 86400);
    ClockSplits(epoch % 86400);
    DaysAndSeconds(epoch, DayNumber(Fields(epoch).date));
  }

  lemma DaysAndSeconds(epoch: int, days: int)
    requires days == epoch / 86400
    ensures days * 86400 + epoch % 86400 == epoch
  {
  }

  /** A two-digit field. */
  lemma TwoDigits(n: int)
    requires 0 <= n <= 99
    ensures Decimal(n, 2) == [Digit(n / 10), Digit(n % 10)] && NatValue(Decimal(n, 2)) == n
  {
    DigitsValue(n);
    ZeroPadValue(Digits(n), 2);
    if n < 10 {
      assert ZeroPad(Digits(n), 2) == ZeroPad("0" + Digits(n), 2) == "0" + Digits(n);
    } else {
      assert Digits(n) == Digits(n / 10) + [Digit(n % 10)];
    }
  }

  lemma AfterYearReads(c: Clock)
    requires ValidClock(c)
    ensures var t := "-" + AfterYear(c);
            && |t| == 16
            && t[1..3] == Decimal(c.date.month, 2) && t[4..6] == Decimal(c.date.day, 2)
            && t[7..9] == Decimal(c.hour, 2) && t[10..12] == Decimal(c.minute, 2) && t[13..15] == Decimal(c.second, 2)
  {
    TwoDigits(c.date.month);
    TwoDigits(c.date.day);
    TwoDigits(c.hour);
    TwoDigits(c.minute);
    TwoDigits(c.second);
  }

  lemma SplitAtYear(year: string, rest: string)
    requires |rest| == 15
    ensures var s := year + "-" + rest;
            |s| == |year| + 16 && s[..|s| - 16] == year && s[|s| - 16..] == "-" + rest
  {
  }

  lemma FieldsRead(c: Clock)
    requires ValidClock(c)
    ensures |Format(c)| >= 16 && ReadClock(Format(c)) == c
  {
    AfterYearReads(c);
    DecimalValue(c.date.year, 4);
    SplitAtYear(Decimal(c.date.year, 4), AfterYear(c));
    TwoDigits(c.date.month);
    TwoDigits(c.date.day);
    TwoDigits(c.hour);
    TwoDigits(c.minute);
    TwoDigits(c.second);
  }

  /** A timestamp reads back to the instant it was made from, for every instant: years outside
      0000-9999 included. So the text determines the epoch. */
  lemma TimestampReadsBack(epoch: int)
    ensures var s := ToRfc3339Utc(epoch);
            |s| >= 16 && ReadClock(s) == Fields(epoch) && Instant(ReadClock(s)) == epoch
  {
    FieldsAreTheInstant(epoch);
    FieldsRead(Fields(epoch));
  }

  lemma TwoDigitsOrder(m: int, n: int)
    requires 0 <= m <= 99 && 0 <= n <= 99
    ensures |Decimal(m, 2)| == |Decimal(n, 2)| == 2
    ensures LexLess(Decimal(m, 2), Decimal(n, 2)) <==> m < n
    ensures Decimal(m, 2) == Decimal(n, 2) <==> m == n
  {
    TwoDigits(m);
    TwoDigits(n);
    TwoCharsOrder(Digit(m / 10), Digit(m % 10), Digit(n / 10), Digit(n % 10));
    DigitPairsOrder(m / 10, m % 10, n / 10, n % 10);
  }

  lemma TwoCharsOrder(a: char, b: char, c: char, d: char)
    ensures LexLess([a, b], [c, d]) <==> a < c || (a == c && b < d)
  {
    assert [a, b][1..] == [b] && [c, d][1..] == [d] && [b][1..] == [] && [d][1..] == [];
    assert LexLess([b], [d]) <==> b < d;
  }

  lemma DigitPairsOrder(a: int, b: int, c: int, d: int)
    requires 0 <= a < 10 && 0 <= b < 10 && 0 <= c < 10 && 0 <= d < 10
    ensures Digit(a) < Digit(c) || (Digit(a) == Digit(c) && Digit(b) < Digit(d)) <==> 10 * a + b < 10 * c + d
    ensures Digit(a) == Digit(c) && Digit(b) == Digit(d) <==> 10 * a + b == 10 * c + d
  {
  }

  /** Two-digit fields, each followed by its separator. */
  function Spaced(fs: seq<int>, seps: seq<string>): string
    requires |fs| == |seps|
  {
    if fs == [] then "" else Decimal(fs[0], 2) + seps[0] + Spaced(fs[1..], seps[1..])
  }

  lemma {:induction false} SpacedOrder(fs: seq<int>, gs: seq<int>, seps: seq<string>)
    requires |fs| == |gs| == |seps|
    requires forall i :: 0 <= i < |fs| ==> 0 <= fs[i] <= 99 && 0 <= gs[i] <= 99
    ensures LexLess(Spaced(fs, seps), Spaced(gs, seps)) <==> FieldsLess(fs, gs)
  {
    if fs != [] {
      var p, q := Decimal(fs[0], 2), Decimal(gs[0], 2);
      var x, y := Spaced(fs[1..], seps[1..]), Spaced(gs[1..], seps[1..]);
      TwoDigitsOrder(fs[0], gs[0]);
      SpacedOrder(fs[1..], gs[1..], seps[1..]);
      assert p + seps[0] + x == p + (seps[0] + x) && q + seps[0] + y == q + (seps[0] + y);
      LexConcat(p, seps[0] + x, q, seps[0] + y);
      LexConcat(seps[0], x, seps[0], y);
      LexIrreflexive(seps[0]);
    }
  }

  /** The fields after the year. */
  function FieldList(c: Clock): seq<int> {
    [c.date.month, c.date.day, c.hour, c.minute, c.second]
  }

  const SEPARATORS: seq<string> := ["-", "T", ":", ":", "Z"]

  /** The first `n` fields, spaced, gathered from the left. */
  function Gathered(fs: seq<int>, ss: seq<string>, n: nat): string
    requires n <= |fs| == |ss|
  {
    if n == 0 then "" else Gathered(fs, ss, n - 1) + Decimal(fs[n - 1], 2) + ss[n - 1]
  }

  lemma {:induction false} GatheredIsSpaced(fs: seq<int>, ss: seq<string>, n: nat)
    requires n <= |fs| == |ss|
    ensures Spaced(fs, ss) == Gathered(fs, ss, n) + Spaced(fs[n..], ss[n..])
  {
    if n == 0 {
      assert fs[0..] == fs && ss[0..] == ss;
    } else {
      GatheredIsSpaced(fs, ss, n - 1);
      var g, d, rest := Gathered(fs, ss, n - 1), Decimal(fs[n - 1], 2), Spaced(fs[n..], ss[n..]);
      assert fs[n - 1..][1..] == fs[n..] && ss[n - 1..][1..] == ss[n..];
      assert g + (d + ss[n - 1] + rest) == g + d + ss[n - 1] + rest;
    }
  }

  lemma AfterYearIsSpaced(c: Clock)
    ensures AfterYear(c) == Spaced(FieldList(c), SEPARATORS)
  {
    var fs, ss := FieldList(c), SEPARATORS;
    assert Gathered(fs, ss, 1) == Decimal(c.date.month, 2) + "-";
    assert Gathered(fs, ss, 2) == Gathered(fs, ss, 1) + Decimal(c.date.day, 2) + "T";
    assert Gathered(fs, ss, 3) == Gathered(fs, ss, 2) + Decimal(c.hour, 2) + ":";
    assert Gathered(fs, ss, 4) == Gathered(fs, ss, 3) + Decimal(c.minute, 2) + ":";
    assert Gathered(fs, ss, 5) == Gathered(fs, ss, 4) + Decimal(c.second, 2) + "Z";
    GatheredIsSpaced(fs, ss, 5);
    assert fs[5..] == [] && ss[5..] == [];
    assert Gathered(fs, ss, 5) + "" == Gathered(fs, ss, 5);
  }

  /** Within a year, field order is time order. */
  lemma FieldOrder(c: Clock, d: Clock)
    requires ValidClock(c) && ValidClock(d) && c.date.year == d.date.year
    ensures FieldsLess(FieldList(c), FieldList(d)) <==> Instant(c) < Instant(d)
  {
    FieldsLessIs(c, d);
    if Before(c.date, d.date) {
      DayNumberMonotone(c.date, d.date);
    } else if Before(d.date, c.date) {
      DayNumberMonotone(d.date, c.date);
    }
  }

  lemma FieldsLessIs(c: Clock, d: Clock)
    requires c.date.year == d.date.year
    ensures FieldsLess(FieldList(c), FieldList(d)) <==>
            Before(c.date, d.date) || (c.date == d.date && (c.hour < d.hour || (c.hour == d.hour &&
            (c.minute < d.minute || (c.minute == d.minute && c.second < d.second)))))
  {
    var s, t := FieldList(c), FieldList(d);
    FieldsLessStep(s, t, 0);
    FieldsLessStep(s, t, 1);
    FieldsLessStep(s, t, 2);
    FieldsLessStep(s, t, 3);
    FieldsLessStep(s, t, 4);
    assert s[0..] == s && t[0..] == t;
    assert !FieldsLess(s[5..], t[5..]);
  }

  lemma FieldsLessStep(s: seq<int>, t: seq<int>, i: nat)
    requires |s| == |t| && i < |s|
    ensures FieldsLess(s[i..], t[i..]) <==> s[i] < t[i] || (s[i] == t[i] && FieldsLess(s[i + 1..], t[i + 1..]))
  {
    assert s[i..][1..] == s[i + 1..] && t[i..][1..] == t[i + 1..];
  }

  // -------------------------------------------------------------- text order

  function YearOf(epoch: int): int {
    Fields(epoch).date.year
  }

  lemma SameYearOrder(c: Clock, d: Clock)
    requires ValidClock(c) && ValidClock(d) && c.date.year == d.date.year
    ensures LexLess(Format(c), Format(d)) <==> Instant(c) < Instant(d)
  {
    AfterYearIsSpaced(c);
    AfterYearIsSpaced(d);
    var year := Decimal(c.date.year, 4) + "-";
    LexConcat(year, AfterYear(c), year, AfterYear(d));
    LexIrreflexive(year);
    SpacedOrder(FieldList(c), FieldList(d), SEPARATORS);
    FieldOrder(c, d);
  }

  lemma OtherYearOrder(c: Clock, d: Clock)
    requires c.date.year != d.date.year
    ensures LexLess(Format(c), Format(d)) <==> YearsSort(c.date.year, d.date.year)
  {
    YearThenDash(c.date.year, AfterYear(c), d.date.year, AfterYear(d));
  }

  /** How any two timestamps compare as text: by time within a year, and else as their years do as text. */
  lemma TextOrderIs(a: int, b: int)
    ensures LexLess(ToRfc3339Utc(a), ToRfc3339Utc(b)) <==>
      if YearOf(a) == YearOf(b) then a < b else LexLess(Decimal(YearOf(a), 4), Decimal(YearOf(b), 4))
  {
    FieldsAreTheInstant(a);
    FieldsAreTheInstant(b);
    if YearOf(a) == YearOf(b) {
      SameYearOrder(Fields(a), Fields(b));
    } else {
      OtherYearOrder(Fields(a), Fields(b));
      YearTextOrder(YearOf(a), YearOf(b));
    }
  }

  lemma YearsFollow(a: int, b: int)
    requires a < b
    ensures YearOf(a) <= YearOf(b)
  {
    FieldsAreTheInstant(a);
    FieldsAreTheInstant(b);
    var c, d := Fields(a).date, Fields(b).date;
    if d.year < c.year {
      DayNumberMonotone(d, c);
    }
  }

  /** So of two instants the earlier sorts first exactly when they share a year, or their years sort: in
      numbers, by `YearsSort`. */
  lemma TextOrderExactly(a: int, b: int)
    requires a < b
    ensures LexLess(ToRfc3339Utc(a), ToRfc3339Utc(b))
            <==> YearOf(a) == YearOf(b) || YearsSort(YearOf(a), YearOf(b))
  {
    TextOrderIs(a, b);
    YearTextOrder(YearOf(a), YearOf(b));
  }

  /** By ranges of years: text order is time order within 0000-9999 and within 10000-99999, and from a
      negative year to any other; within -999 to -1 it is time order only inside a year; and from four digits
      to five it is time order exactly when the earlier year is at most the later one's leading four digits. */
  lemma TextOrderByYears(a: int, b: int)
    requires a < b
    ensures var y, z := YearOf(a), YearOf(b);
            var sorts := LexLess(ToRfc3339Utc(a), ToRfc3339Utc(b));
            && (0 <= y && z <= 9999 ==> sorts)
            && (10000 <= y && z <= 99999 ==> sorts)
            && (y < 0 <= z ==> sorts)
            && (-999 <= y && z < 0 ==> (sorts <==> y == z))
            && (0 <= y <= 9999 < z <= 99999 ==> (sorts <==> y <= z / 10))
  {
    TextOrderExactly(a, b);
    YearsFollow(a, b);
    if YearOf(a) < YearOf(b) {
      YearRanges(YearOf(a), YearOf(b));
    }
  }

  /** The separators of section 5.6 of RFC 3339, by position. */
  lemma Separators(c: Clock)
    requires ValidClock(c)
    ensures var s := Format(c); var n := |s| - 16;
            && n >= 0 && s[n] == '-' && s[n + 3] == '-' && s[n + 6] == 'T' && s[n + 9] == ':' && s[n + 12] == ':'
            && s[n + 15] == 'Z'
  {
    AfterYearReads(c);
    TwoDigits(c.date.month);
    TwoDigits(c.date.day);
    TwoDigits(c.hour);
    TwoDigits(c.minute);
    TwoDigits(c.second);
    SplitAtYear(Decimal(c.date.year, 4), AfterYear(c));
  }

  /** Midnight on 1 January. */
  function NewYear(y: int): int {
    DayNumber(Date(y, 1, 1)) * 86400
  }

  lemma DaysOfInstants(a: int, day: int)
    ensures a / 86400 >= day <==> a >= day * 86400
  {
  }

  /** Years turn at midnight on 1 January. */
  lemma YearsTurn(epoch: int, y: int)
    ensures YearOf(epoch) >= y <==> epoch >= NewYear(y)
  {
    var d, start := Fields(epoch).date, Date(y, 1, 1);
    CivilCounts(epoch / 86400);
    DaysOfInstants(epoch, DayNumber(start));
    if Before(d, start) {
      DayNumberMonotone(d, start);
    } else if d != start {
      DayNumberMonotone(start, d);
    }
  }

  /** The first instants of years 0 and 10000. */
  const YEAR_0 := -62_167_219_200
  const YEAR_10000 := 253_402_300_800

  predicate IsFourDigit(epoch: int) {
    YEAR_0 <= epoch < YEAR_10000
  }

  lemma FourDigitYears(epoch: int)
    ensures IsFourDigit(epoch) <==> 0 <= YearOf(epoch) <= 9999
  {
    YearsTurn(epoch, 0);
    YearsTurn(epoch, 10000);
    assert NewYear(0) == YEAR_0 && NewYear(10000) == YEAR_10000;
  }

  /** For years 0000-9999 text order is time order, as section 5.1 of RFC 3339 asks; instants before
      1970 included. */
  lemma TextOrderIsTimeOrder(a: int, b: int)
    requires IsFourDigit(a) && IsFourDigit(b)
    ensures |ToRfc3339Utc(a)| == |ToRfc3339Utc(b)| == 20
    ensures LexLess(ToRfc3339Utc(a), ToRfc3339Utc(b)) <==> a < b
  {
    FourDigitYears(a);
    FourDigitYears(b);
    FieldsAreTheInstant(a);
    FieldsAreTheInstant(b);
    FormatLength(Fields(a));
    FormatLength(Fields(b));
    if a < b {
      TextOrderByYears(a, b);
    } else if b < a {
      TextOrderByYears(b, a);
      LexAsymmetric(ToRfc3339Utc(a), ToRfc3339Utc(b));
    } else {
      LexIrreflexive(ToRfc3339Utc(a));
    }
  }

  lemma FormatLength(c: Clock)
    requires ValidClock(c) && 0 <= c.date.year <= 9999
    ensures |Format(c)| == 20
  {
    AfterYearReads(c);
    YearText(c.date.year);
    PaddedIs(c.date.year, 4);
    CountBounds(c.date.year);
  }

  lemma NewYearIs(y: int)
    ensures YearOf(NewYear(y)) == y
  {
    CivilInvertsDayNumber(Date(y, 1, 1));
    assert NewYear(y) / 86400 == DayNumber(Date(y, 1, 1));
  }

  lemma FiveDigitsSortFirst()
    ensures YearsSort(10000, 9999)
  {
    CountBounds(9999);
    CountBounds(10000);
    assert Cut(10000, 1) == 1000;
  }

  /** The first instant of year 10000 sorts before that of year 9999. */
  lemma TextOrderFailsPastYear9999()
    ensures NewYear(9999) < NewYear(10000) && LexLess(ToRfc3339Utc(NewYear(10000)), ToRfc3339Utc(NewYear(9999)))
  {
    DayNumberMonotone(Date(9999, 1, 1), Date(10000, 1, 1));
    NewYearIs(9999);
    NewYearIs(10000);
    TextOrderIs(NewYear(10000), NewYear(9999));
    YearTextOrder(10000, 9999);
    FiveDigitsSortFirst();
  }
}
