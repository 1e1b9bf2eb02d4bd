/** The proleptic Gregorian calendar: day numbers, years, months and weeks.
    Day 0 is Monday, 1 January of year 1; weekdays count from Sunday = 0. */
module Civil {

  const SECONDS_PER_DAY: int := 86400

  predicate IsLeap(y: int) {
    y % 4 == 0 && (y % 100 != 0 || y % 400 == 0)
  }

  /** Number of days before 1 January of year y. */
  function YearStart(y: int): int {
    365 * (y - 1) + (y - 1) / 4 - (y - 1) / 100 + (y - 1) / 400
  }

  function YearLength(y: int): int {
    if IsLeap(y) then 366 else 365
  }

  lemma NextYear(y: int)
    ensures YearStart(y + 1) == YearStart(y) + YearLength(y)
  {
    assert y / 4 - (y - 1) / 4 == if y % 4 == 0 then 1 else 0;
    assert y / 100 - (y - 1) / 100 == if y % 100 == 0 then 1 else 0;
    assert y / 400 - (y - 1) / 400 == if y % 400 == 0 then 1 else 0;
  }

  lemma {:induction false} YearMono(y: int, z: int)
    requires y <= z
    ensures YearStart(y) + 365 * (z - y) <= YearStart(z)
    decreases z - y
  {
    if y < z {
      NextYear(z - 1);
      YearMono(y, z - 1);
    }
  }

  function YearUp(d: int, y: int): (r: int)
    requires YearStart(y) <= d
    ensures YearStart(r) <= d < YearStart(r + 1)
    decreases d - YearStart(y)
  {
    NextYear(y);
    if d < YearStart(y + 1) then y else YearUp(d, y + 1)
  }

  function YearDown(d: int, y: int): (r: int)
    requires d < YearStart(y)
    ensures YearStart(r) <= d < YearStart(r + 1)
    decreases YearStart(y) - d
  {
    NextYear(y - 1);
    if YearStart(y - 1) <= d then y - 1 else YearDown(d, y - 1)
  }

  function YearOf(d: int): (y: int)
    ensures YearStart(y) <= d < YearStart(y + 1)
  {
    if YearStart(1) <= d then YearUp(d, 1) else YearDown(d, 1)
  }

  lemma YearOfIs(d: int, y: int)
    requires YearStart(y) <= d < YearStart(y + 1)
    ensures YearOf(d) == y
  {
    var z := YearOf(d);
    if z < y {
      YearMono(z + 1, y);
    } else if y < z {
      YearMono(y + 1, z);
    }
  }

  /** Day of the year, from 1. */
  function YearDay(d: int): int {
    d - YearStart(YearOf(d)) + 1
  }

  // ---------- months ----------

  /** Days of year y before month m; month 13 stands for the whole year. */
  function BeforeMonth(y: int, m: int): int
    requires 1 <= m <= 13
  {
    var leap := if IsLeap(y) then 1 else 0;
    if m == 1 then 0
    else if m == 2 then 31
    else if m == 3 then 59 + leap
    else if m == 4 then 90 + leap
    else if m == 5 then 120 + leap
    else if m == 6 then 151 + leap
    else if m == 7 then 181 + leap
    else if m == 8 then 212 + leap
    else if m == 9 then 243 + leap
    else if m == 10 then 273 + leap
    else if m == 11 then 304 + leap
    else if m == 12 then 334 + leap
    else 365 + leap
  }

  function DaysInMonth(y: int, m: int): int
    requires 1 <= m <= 12
  {
    BeforeMonth(y, m + 1) - BeforeMonth(y, m)
  }

  /** First day of month number i, counted from January of year 0; this is how
      time.Date normalizes a month outside 1..12. */
  function MonthStart(i: int): int {
    YearStart(i / 12) + BeforeMonth(i / 12, i % 12 + 1)
  }

  function MonthLength(i: int): int {
    DaysInMonth(i / 12, i % 12 + 1)
  }

  lemma NextMonth(i: int)
    ensures MonthStart(i + 1) == MonthStart(i) + MonthLength(i)
    ensures 28 <= MonthLength(i) <= 31
  {
    if i % 12 == 11 {
      NextYear(i / 12);
      assert (i + 1) / 12 == i / 12 + 1 && (i + 1) % 12 == 0;
    } else {
      assert (i + 1) / 12 == i / 12 && (i + 1) % 12 == i % 12 + 1;
    }
  }

  lemma {:induction false} MonthMono(i: int, j: int)
    requires i <= j
    ensures MonthStart(i) + 28 * (j - i) <= MonthStart(j)
    decreases j - i
  {
    hide MonthStart, MonthLength;
    if i < j {
      NextMonth(j - 1);
      MonthMono(i, j - 1);
    }
  }

  function MonthDown(y: int, yd: int, m: int): (r: int)
    requires 1 <= m <= 12 && 0 <= yd < BeforeMonth(y, m + 1)
    ensures 1 <= r <= 12 && BeforeMonth(y, r) <= yd < BeforeMonth(y, r + 1)
  {
    if BeforeMonth(y, m) <= yd then m else MonthDown(y, yd, m - 1)
  }

  function MonthOf(d: int): (m: int)
    ensures 1 <= m <= 12
    ensures var y := YearOf(d); YearStart(y) + BeforeMonth(y, m) <= d < YearStart(y) + BeforeMonth(y, m + 1)
  {
    var y := YearOf(d);
    NextYear(y);
    MonthDown(y, d - YearStart(y), 12)
  }

  /** Month number of a day, counted from January of year 0. */
  function MonthIndex(d: int): int {
    YearOf(d) * 12 + MonthOf(d) - 1
  }

  lemma MonthIndexBounds(d: int)
    ensures MonthStart(MonthIndex(d)) <= d < MonthStart(MonthIndex(d) + 1)
  {
    var y, m := YearOf(d), MonthOf(d);
    var i := MonthIndex(d);
    assert i / 12 == y && i % 12 == m - 1;
    NextMonth(i);
  }

  function DayOfMonth(d: int): int {
    d - YearStart(YearOf(d)) - BeforeMonth(YearOf(d), MonthOf(d)) + 1
  }

  // ---------- weeks ----------

  function Weekday(d: int): (w: int)
    ensures 0 <= w < 7
  {
    (d + 1) % 7
  }

  /** The day the week containing d starts on, weeks starting on weekday wkst. */
  function WeekStart(d: int, wkst: int): int {
    d - (Weekday(d) - wkst + 7) % 7
  }

  lemma WeekStartIs(d: int, wkst: int)
    requires 0 <= wkst < 7
    ensures WeekStart(d, wkst) <= d < WeekStart(d, wkst) + 7
    ensures Weekday(WeekStart(d, wkst)) == wkst
  {}

  /** First day of week 1 of year y: the week that contains 4 January. */
  function WeekYearStart(y: int, wkst: int): int {
    WeekStart(YearStart(y) + 3, wkst)
  }

  function WeeksIn(y: int, wkst: int): int {
    (WeekYearStart(y + 1, wkst) - WeekYearStart(y, wkst)) / 7
  }

  lemma WholeWeeks(a: int, b: int)
    requires Weekday(a) == Weekday(b)
    ensures b == a + 7 * ((b - a) / 7)
  {}

  /** Week-years tile the days: each is 52 or 53 whole weeks, starts within
      three days of 1 January, and is followed at once by the next. */
  lemma WeekYearTiles(y: int, wkst: int)
    requires 0 <= wkst < 7
    ensures WeeksIn(y, wkst) == 52 || WeeksIn(y, wkst) == 53
    ensures WeekYearStart(y + 1, wkst) == WeekYearStart(y, wkst) + 7 * WeeksIn(y, wkst)
    ensures YearStart(y) - 3 <= WeekYearStart(y, wkst) <= YearStart(y) + 3
    ensures Weekday(WeekYearStart(y, wkst)) == wkst
  {
    hide YearStart, WeekStart, Weekday, IsLeap;
    NextYear(y);
    WeekStartIs(YearStart(y) + 3, wkst);
    WeekStartIs(YearStart(y + 1) + 3, wkst);
    WholeWeeks(WeekYearStart(y, wkst), WeekYearStart(y + 1, wkst));
  }

  lemma {:induction false} WeekYearMono(y: int, z: int, wkst: int)
    requires 0 <= wkst < 7 && y <= z
    ensures WeekYearStart(y, wkst) <= WeekYearStart(z, wkst)
    decreases z - y
  {
    if y < z {
      WeekYearTiles(z - 1, wkst);
      WeekYearMono(y, z - 1, wkst);
    }
  }

  /** Week 1 of year 10000 begins in year 9999 exactly for weeks that start on a
      Wednesday, Thursday or Friday. */
  lemma LastWeekYear(wkst: int)
    requires 0 <= wkst < 7
    ensures WeekYearStart(10000, wkst) < YearStart(10000) <==> 3 <= wkst <= 5
  {
    assert YearStart(10000) == 3652059;
    assert Weekday(3652062) == 2;
  }

  // ---------- the calendar itself ----------

  /** Thirty days have April, June, September and November. */
  lemma MonthLengths(y: int, m: int)
    requires 1 <= m <= 12
    ensures DaysInMonth(y, m) == if m == 2 then if IsLeap(y) then 29 else 28 else if m in {4, 6, 9, 11} then 30 else 31
  {}

  /** A year is a leap year when 4 divides it, unless 100 does and 400 does not. */
  lemma LeapYears(y: int)
    ensures YearLength(y) == 366 <==> y % 4 == 0 && (y % 100 != 0 || y % 400 == 0)
    ensures YearLength(y) == 366 || YearLength(y) == 365
  {}

  /** Day 719162 is 1 January 1970, a Thursday; weekdays count from Sunday. */
  lemma Epoch()
    ensures YearStart(1970) == 719162 && Weekday(719162) == 4
  {}
}
