/** Howard Hinnant's `civil_from_days` against the proleptic Gregorian calendar. */
module Calendar {

  datatype Date = Date(year: int, month: int, day: int)

  // ---------------------------------------------------------------- the code

  /** Year of a 400-year era that starts on 1 March, from the day of the era. */
  function YearOfEra(doe: int): int {
    (doe - doe / 1460 + doe / 36524 - doe / 146096) / 365
  }

  /** Day of a March-based year. */
  function DayOfYear(doe: int, yoe: int): int {
    doe - (365 * yoe + yoe / 4 - yoe / 100)
  }

  /** March-based month. */
  function MarchMonth(doy: int): int {
    (5 * doy + 2) / 153
  }

  /** The date of day `doy` of the March-based year `y`. */
  function DateOfMarchYear(y: int, doy: int): Date {
    var mp := MarchMonth(doy);
    var d := doy - (153 * mp + 2) / 5 + 1;
    var m := if mp < 10 then mp + 3 else mp - 9;
    Date(if m <= 2 then y + 1 else y, m, d)
  }

  /** Days since 1970-01-01 to a date. Dafny's `/` and `%` are Euclidean, as `div_euclid` and
      `rem_euclid` are; every other quotient here has a non-negative dividend. */
  function CivilFromDays(z: int): Date {
    var shifted := z + 719468;
    var era := shifted / 146097;
    var doe := shifted % 146097;
    var yoe := YearOfEra(doe);
    var y := yoe + era * 400;
    DateOfMarchYear(y, DayOfYear(doe, yoe))
  }

  // ----------------------------------------------------------- the calendar

  /** The leap-year rule of Appendix C of RFC 3339. */
  predicate IsLeap(y: int) {
    y % 4 == 0 && (y % 100 != 0 || y % 400 == 0)
  }

  function MonthLength(y: int, m: int): int {
    if m == 2 then (if IsLeap(y) then 29 else 28)
    else if m == 4 || m == 6 || m == 9 || m == 11 then 30
    else 31
  }

  predicate ValidDate(d: Date) {
    1 <= d.month <= 12 && 1 <= d.day <= MonthLength(d.year, d.month)
  }

  function NextDay(d: Date): Date {
    if d.day < MonthLength(d.year, d.month) then d.(day := d.day + 1)
    else if d.month < 12 then Date(d.year, d.month + 1, 1)
    else Date(d.year + 1, 1, 1)
  }

  /** Days from 0001-01-01 to the first day of year `y`, counting leap days. */
  function DaysBeforeYear(y: int): int {
    365 * (y - 1) + (y - 1) / 4 - (y - 1) / 100 + (y - 1) / 400
  }

  /** Days of year `y` before month `m`. */
  function DaysBeforeMonth(y: int, m: int): int {
    if m <= 1 then 0 else DaysBeforeMonth(y, m - 1) + MonthLength(y, m - 1)
  }

  /** Days since 1970-01-01, counted month by month. */
  function DayNumber(d: Date): int {
    DaysBeforeYear(d.year) + DaysBeforeMonth(d.year, d.month) + d.day - 1 - 719162
  }

  function YearLength(y: int): int {
    if IsLeap(y) then 366 else 365
  }

  /** The calendar order. */
  predicate Before(a: Date, b: Date) {
    a.year < b.year || (a.year == b.year && (a.month < b.month || (a.month == b.month && a.day < b.day)))
  }

  // ------------------------------------------------------------------ lemmas

  /** A day of the era as century `c`, four-year group `k`, year `j` of the group and day `x`. */
  predicate EraSplit(doe: int, c: int, k: int, j: int, x: int) {
    0 <= c <= 3 && 0 <= k <= 24 && 0 <= j <= 3 && 0 <= x <= 365 && (x == 365 ==> j == 3 && (k < 24 || c == 3)) &&
    doe == 36524 * c + 1461 * k + 365 * j + x
  }

  lemma SplitEra(doe: int) returns (c: int, k: int, j: int, x: int)
    requires 0 <= doe < 146097
    ensures EraSplit(doe, c, k, j, x)
  {
    c := if doe == 146096 then 3 else doe / 36524;
    var r := doe - 36524 * c;
    k := r / 1461;
    var s := r % 1461;
    j := if s == 1460 then 3 else s / 365;
    x := s - 365 * j;
  }

  /** The era arithmetic inverts the split: leap-day corrections cancel exactly. */
  lemma EraYear(doe: int, c: int, k: int, j: int, x: int)
    requires EraSplit(doe, c, k, j, x)
    ensures YearOfEra(doe) == 100 * c + 4 * k + j
    ensures DayOfYear(doe, YearOfEra(doe)) == x
  {
    var s := 365 * j + x;
    if doe == 146096 {
      assert c == 3 && k == 24 && j == 3 && x == 365;
    } else {
      assert doe / 36524 == c;
      assert doe / 146096 == 0;
      var carry := if 24 * c + k + s >= 1460 then 1 else 0;
      assert doe == 1460 * (25 * c + k + carry) + (24 * c + k + s - 1460 * carry);
      assert doe / 1460 == 25 * c + k + carry;
      assert doe - doe / 1460 + doe / 36524 == 365 * (100 * c + 4 * k + j) + x - carry;
      assert 0 <= x - carry < 365;
    }
    assert (100 * c + 4 * k + j) / 4 == 25 * c + k;
    assert (100 * c + 4 * k + j) / 100 == c;
  }

  /** `DaysBeforeMonth` unrolled. */
  lemma MonthTable(y: int)
    ensures DaysBeforeMonth(y, 2) == 31
    ensures var f := 59 + (if IsLeap(y) then 1 else 0);
            && DaysBeforeMonth(y, 3) == f && DaysBeforeMonth(y, 4) == f + 31 && DaysBeforeMonth(y, 5) == f + 61
            && DaysBeforeMonth(y, 6) == f + 92 && DaysBeforeMonth(y, 7) == f + 122 && DaysBeforeMonth(y, 8) == f + 153
            && DaysBeforeMonth(y, 9) == f + 184 && DaysBeforeMonth(y, 10) == f + 214
            && DaysBeforeMonth(y, 11) == f + 245 && DaysBeforeMonth(y, 12) == f + 275
            && DaysBeforeMonth(y, 13) == f + 306
  {
    assert DaysBeforeMonth(y, 3) == DaysBeforeMonth(y, 2) + MonthLength(y, 2);
    assert DaysBeforeMonth(y, 5) == DaysBeforeMonth(y, 4) + 30;
    assert DaysBeforeMonth(y, 7) == DaysBeforeMonth(y, 6) + 30;
    assert DaysBeforeMonth(y, 9) == DaysBeforeMonth(y, 8) + 31;
    assert DaysBeforeMonth(y, 11) == DaysBeforeMonth(y, 10) + 31;
    assert DaysBeforeMonth(y, 13) == DaysBeforeMonth(y, 12) + 31;
  }

  lemma Steps4(y: int)
    ensures (y - 1) / 4 == y / 4 - if y % 4 == 0 then 1 else 0
  {
  }

  lemma Quotient100(y: int, q: int, r: int)
    requires y == 100 * q + r && 0 <= r < 100
    ensures y / 100 == q && y % 100 == r
  {
  }

  lemma Quotient400(y: int, q: int, r: int)
    requires y == 400 * q + r && 0 <= r < 400
    ensures y / 400 == q && y % 400 == r
  {
  }

  lemma Quotient4(y: int, q: int, r: int)
    requires y == 4 * q + r && 0 <= r < 4
    ensures y / 4 == q && y % 4 == r
  {
  }

  lemma CenturyIsFourth(y: int)
    ensures y % 100 == 0 ==> y % 4 == 0
  {
    if y % 100 == 0 {
      Quotient4(y, 25 * (y / 100), 0);
    }
  }

  lemma Steps100(y: int)
    ensures (y - 1) / 100 == y / 100 - if y % 100 == 0 then 1 else 0
  {
    var q, r := y / 100, y % 100;
    if r == 0 {
      Quotient100(y - 1, q - 1, 99);
    } else {
      Quotient100(y - 1, q, r - 1);
    }
  }

  lemma Steps400(y: int)
    ensures (y - 1) / 400 == y / 400 - if y % 400 == 0 then 1 else 0
    ensures y % 400 == 0 ==> y % 100 == 0
  {
    var q, r := y / 400, y % 400;
    if r == 0 {
      Quotient400(y - 1, q - 1, 399);
      Quotient100(y, 4 * q, 0);
    } else {
      Quotient400(y - 1, q, r - 1);
    }
  }

  /** The counted calendar grows by one year's length each year. */
  lemma YearsAdd(y: int)
    ensures DaysBeforeYear(y + 1) == DaysBeforeYear(y) + YearLength(y)
  {
    Steps4(y);
    Steps100(y);
    Steps400(y);
    CenturyIsFourth(y);
  }

  /** 1 March of a year of an era, counted in both calendars. */
  lemma EraOffset(era: int, c: int, k: int, j: int)
    requires 0 <= c <= 3 && 0 <= k <= 24 && 0 <= j <= 3
    ensures var y := 400 * era + 100 * c + 4 * k + j;
            DaysBeforeYear(y + 1) == 146097 * era + 36524 * c + 1461 * k + 365 * j
  {
    var y := 400 * era + 100 * c + 4 * k + j;
    assert y / 4 == 100 * era + 25 * c + k;
    assert y / 100 == 4 * era + c;
    assert y / 400 == era;
  }

  lemma LeapCentury(q: int)
    ensures IsLeap(400 * q)
  {
  }

  lemma LeapInCentury(q: int, k: int)
    requires 1 <= k <= 24
    ensures IsLeap(100 * q + 4 * k)
  {
    assert (100 * q + 4 * k) % 100 == 4 * k;
    assert 100 * q + 4 * k == 4 * (25 * q + k);
  }

  /** The only year of a four-year group followed by a leap year is its last, centuries aside. */
  lemma EraLeap(era: int, c: int, k: int, j: int)
    requires 0 <= c <= 3 && 0 <= k <= 24
    requires j == 3 && (k < 24 || c == 3)
    ensures IsLeap(400 * era + 100 * c + 4 * k + j + 1)
  {
    var n := 400 * era + 100 * c + 4 * k + j + 1;
    if k == 24 {
      assert n == 400 * (era + 1);
      LeapCentury(era + 1);
    } else {
      assert n == 100 * (4 * era + c) + 4 * (k + 1);
      LeapInCentury(4 * era + c, k + 1);
    }
  }

  /** The March-based year and day of the year that `civil_from_days` works out. */
  lemma MarchSplit(z: int) returns (y: int, x: int)
    ensures 0 <= x <= 365 && (x == 365 ==> IsLeap(y + 1))
    ensures CivilFromDays(z) == DateOfMarchYear(y, x) && DaysBeforeYear(y + 1) + x == z + 719468
    ensures var doe := (z + 719468) % 146097;
            0 <= YearOfEra(doe) <= 399 && DayOfYear(doe, YearOfEra(doe)) == x
  {
    var era, doe := (z + 719468) / 146097, (z + 719468) % 146097;
    var c, k, j;
    c, k, j, x := SplitEra(doe);
    EraYear(doe, c, k, j, x);
    y := 400 * era + 100 * c + 4 * k + j;
    EraOffset(era, c, k, j);
    if x == 365 {
      EraLeap(era, c, k, j);
    }
  }

  /** `civil_from_days` names a real date, and the date counts back to its input. */
  lemma CivilCounts(z: int)
    ensures ValidDate(CivilFromDays(z))
    ensures DayNumber(CivilFromDays(z)) == z
  {
    var y, x := MarchSplit(z);
    MarchDate(y, x);
  }

  /** Its intermediates stay in the ranges the code comments claim, so the `u32` casts lose nothing. */
  lemma CivilIntermediates(z: int)
    ensures var doe := (z + 719468) % 146097;
            var yoe := YearOfEra(doe);
            var doy := DayOfYear(doe, yoe);
            0 <= yoe <= 399 && 0 <= doy <= 365 && 0 <= MarchMonth(doy) <= 11
  {
    var y, x := MarchSplit(z);
    MarchDate(y, x);
  }

  /** The March-based month formula places day `x` in the right month of the March-based year. */
  lemma MarchDate(y: int, x: int)
    requires 0 <= x <= 365 && (x == 365 ==> IsLeap(y + 1))
    ensures 0 <= MarchMonth(x) <= 11 && ValidDate(DateOfMarchYear(y, x))
    ensures DayNumber(DateOfMarchYear(y, x)) == DaysBeforeYear(y + 1) - 306 + x - 719162
  {
    MarchMonths(x);
    MarchCounts(y, x);
  }

  /** Month `m` of a March-based year starts on its day `(153 * m + 2) / 5`. */
  lemma MarchMonths(x: int)
    requires 0 <= x <= 365
    ensures var m := MarchMonth(x); 0 <= m <= 11 && (153 * m + 2) / 5 <= x < (153 * m + 155) / 5
  {
  }

  lemma MarchCounts(y: int, x: int)
    requires 0 <= x <= 365 && 0 <= MarchMonth(x) <= 11
    ensures DayNumber(DateOfMarchYear(y, x)) == DaysBeforeYear(y + 1) - 306 + x - 719162
  {
    MonthTable(y);
    MonthTable(y + 1);
    YearsAdd(y);
  }

  /** Later dates count higher. */
  lemma DayNumberMonotone(a: Date, b: Date)
    requires ValidDate(a) && ValidDate(b) && Before(a, b)
    ensures DayNumber(a) < DayNumber(b)
  {
    MonthTable(a.year);
    MonthTable(b.year);
    if a.year < b.year {
      YearsAdd(a.year);
      YearsMonotone(a.year + 1, b.year);
    }
  }

  lemma YearsMonotone(a: int, b: int)
    requires a <= b
    ensures DaysBeforeYear(a) <= DaysBeforeYear(b)
  {
  }

  /** Every valid date is the image of its own day number, so with `CivilCounts` the two maps are
      inverse bijections between all days and all valid proleptic Gregorian dates. */
  lemma CivilInvertsDayNumber(d: Date)
    requires ValidDate(d)
    ensures CivilFromDays(DayNumber(d)) == d
  {
    var e := CivilFromDays(DayNumber(d));
    CivilCounts(DayNumber(d));
    if Before(e, d) {
      DayNumberMonotone(e, d);
    } else if Before(d, e) {
      DayNumberMonotone(d, e);
    }
  }

  lemma NextDayCounts(d: Date)
    requires ValidDate(d)
    ensures ValidDate(NextDay(d)) && DayNumber(NextDay(d)) == DayNumber(d) + 1
  {
    if d.day == MonthLength(d.year, d.month) {
      if d.month < 12 {
        assert DaysBeforeMonth(d.year, d.month + 1) == DaysBeforeMonth(d.year, d.month) + d.day;
      } else {
        MonthTable(d.year);
        YearsAdd(d.year);
      }
    }
  }

  /** Day `z + 1` is the Gregorian successor of day `z`. */
  lemma CivilSuccessor(z: int)
    ensures CivilFromDays(z + 1) == NextDay(CivilFromDays(z))
  {
    var d := CivilFromDays(z);
    CivilCounts(z);
    NextDayCounts(d);
    CivilInvertsDayNumber(NextDay(d));
  }
}
