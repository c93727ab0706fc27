/**
  The calendar against independent statements of what it is: a closed form for the
  days before a year, the fields of an instant put together again, the week, and dates
  that are known.
 */
module CalendarLaws {
  import opened Calendar

  // Years

  /** The leap years from year 1 up to and with a year. */
  function LeapYears(year: int): int { year / 4 - year / 100 + year / 400 }

  lemma OneMoreLeapYear(year: int)
    ensures LeapYears(year) - LeapYears(year - 1) == DaysInYear(year) - 365
  {
    Quotients(year, 4);
    Quotients(year, 100);
    Quotients(year, 400);
    DividesToo(year, 4, 25, 100);
    DividesToo(year, 100, 4, 400);
  }

  lemma Quotients(n: int, d: int)
    requires d in {4, 100, 400}
    ensures n / d - (n - 1) / d == if n % d == 0 then 1 else 0
  {
  }

  lemma DividesToo(n: int, d: int, k: int, e: int)
    requires (d, k, e) in {(4, 25, 100), (100, 4, 400)}
    ensures n % e == 0 ==> n % d == 0
  {
    assert n == e * (n / e) + n % e;
  }

  /** Adding up the years one by one agrees with counting the leap years. */
  lemma {:induction false} YearsInClosedForm(year: int)
    ensures DaysBeforeYear(year) == 365 * (year - 1970) + LeapYears(year - 1) - 477
    decreases if year < 1970 then 1970 - year else year - 1970
  {
    if year > 1970 {
      YearsInClosedForm(year - 1);
      OneMoreLeapYear(year - 1);
    } else if year < 1970 {
      YearsInClosedForm(year + 1);
      OneMoreLeapYear(year);
    }
  }

  lemma MoreLeapYears(n: int)
    ensures LeapYears(n + 400) == LeapYears(n) + 97
  {
    assert (n + 400) / 4 == n / 4 + 100;
    assert (n + 400) / 100 == n / 100 + 4;
    assert (n + 400) / 400 == n / 400 + 1;
  }

  /** The calendar repeats after 400 years, which are a whole number of weeks. */
  lemma CenturiesRepeat(year: int, later: int)
    requires later == year + 400
    ensures DaysBeforeYear(later) == DaysBeforeYear(year) + 7 * 20_871
  {
    YearsInClosedForm(year);
    YearsInClosedForm(later);
    MoreLeapYears(year - 1);
  }

  // The fields of an instant

  /** The fields together are the instant. */
  lemma FieldsMakeInstant(zone: int, t: Instant)
    ensures t == InstantOf(zone, DateAt(zone, t), HourAt(zone, t)) + 60 * MinuteAt(zone, t) + SecondAt(zone, t)
  {
    HourOfDay(zone, t, HourAt(zone, t));
    TimeOfLocal(t + zone);
  }

  lemma TimeOfLocal(n: int)
    ensures n == 86_400 * (n / 86_400) + 3_600 * (n % 86_400 / 3_600) + 60 * (n / 60 % 60) + n % 60
  {
    var day, r := n / 86_400, n % 86_400;
    var hour, q := r / 3_600, r % 3_600;
    var minute, second := q / 60, q % 60;
    Split(n, 60, 1_440 * day + 60 * hour + minute, second);
    Split(n / 60, 60, 24 * day + hour, minute);
  }

  lemma Split(n: int, d: int, q: int, r: int)
    requires d == 60 && 0 <= r < d && n == d * q + r
    ensures n / d == q && n % d == r
  {
  }

  /** Fields that are in range are those of the instant they make. */
  lemma InstantHasFields(zone: int, d: Date, hour: int, minute: int, second: int)
    requires ValidDate(d) && 0 <= hour < 24 && 0 <= minute < 60 && 0 <= second < 60
    ensures var t := InstantOf(zone, d, hour) + 60 * minute + second;
      DateAt(zone, t) == d && HourAt(zone, t) == hour && MinuteAt(zone, t) == minute && SecondAt(zone, t) == second
  {
    var t := InstantOf(zone, d, hour) + 60 * minute + second;
    SplitDay(t + zone, DayNumber(d), 3_600 * hour + 60 * minute + second);
    DateOfDayNumber(d);
    TimeOfLocal(t + zone);
    SplitHour(3_600 * hour + 60 * minute + second, hour, 60 * minute + second);
  }

  lemma SplitDay(n: int, q: int, r: int)
    requires 0 <= r < 86_400 && n == 86_400 * q + r
    ensures n / 86_400 == q && n % 86_400 == r
  {
  }

  lemma SplitHour(n: int, q: int, r: int)
    requires 0 <= r < 3_600 && n == 3_600 * q + r
    ensures n / 3_600 == q && n % 3_600 == r
  {
  }

  // The week

  /** The first day was a Thursday, and each day has the weekday after the one before. */
  lemma WeekdaysFollow(zone: int, t: Instant)
    ensures 0 <= t + zone < DAY ==> WeekdayAt(zone, t) == 4
    ensures WeekdayAt(zone, t + DAY) == if WeekdayAt(zone, t) == 6 then 0 else WeekdayAt(zone, t) + 1
  {
    SplitDay(t + DAY + zone, (t + zone) / DAY + 1, (t + zone) % DAY);
  }

  // Dates that are known

  function DaysToMonth(d: Date): int
    requires d.month in {2, 3, 7}
  {
    if d.month == 2 then 31 else (if d.month == 3 then 59 else 181) + if IsLeap(d.year) then 1 else 0
  }

  lemma NumberOfDate(d: Date)
    requires d.month in {2, 3, 7}
    ensures DayNumber(d) == 365 * (d.year - 1970) + LeapYears(d.year - 1) - 477 + DaysToMonth(d) + d.day - 1
  {
    YearsInClosedForm(d.year);
    assert DaysBeforeMonth(d.year, 2) == 31;
    assert DaysBeforeMonth(d.year, 4) == DaysBeforeMonth(d.year, 3) + 31;
    assert DaysBeforeMonth(d.year, 5) == DaysBeforeMonth(d.year, 4) + 30;
    assert DaysBeforeMonth(d.year, 6) == DaysBeforeMonth(d.year, 5) + 31;
  }

  lemma KnownDate(t: Instant, d: Date, hour: int)
    requires ValidDate(d) && 0 <= hour < 24 && t == 86_400 * DayNumber(d) + 3_600 * hour
    ensures DateAt(0, t) == d && HourAt(0, t) == hour && MinuteAt(0, t) == 0 && SecondAt(0, t) == 0
    ensures WeekdayAt(0, t) == (DayNumber(d) + 4) % 7
  {
    InstantHasFields(0, d, hour, 0, 0);
    SplitDay(t, DayNumber(d), 3_600 * hour);
  }

  /** 2000-02-29, a Tuesday, at midnight. */
  lemma LeapDayOf2000(t: Instant, year: int)
    requires t == 951_782_400 && year == 2000
    ensures DateAt(0, t) == Date(year, 2, 29) && WeekdayAt(0, t) == 2
  {
    NumberOfDate(Date(year, 2, 29));
    KnownDate(t, Date(year, 2, 29), 0);
  }

  /** 1900-02-28 and the day after, the first of March. */
  lemma NoLeapDayIn1900(t: Instant, year: int)
    requires t == -2_203_977_600 && year == 1900
    ensures DateAt(0, t) == Date(year, 2, 28) && DateAt(0, t + DAY) == Date(year, 3, 1)
  {
    NumberOfDate(Date(year, 2, 28));
    NumberOfDate(Date(year, 3, 1));
    KnownDate(t, Date(year, 2, 28), 0);
    KnownDate(t + DAY, Date(year, 3, 1), 0);
  }

  /** 2024-07-06 17:00:00, a Saturday. */
  lemma SaturdayIn2024(t: Instant, year: int)
    requires t == 1_720_285_200 && year == 2024
    ensures DateAt(0, t) == Date(year, 7, 6) && WeekdayAt(0, t) == 6
    ensures HourAt(0, t) == 17 && MinuteAt(0, t) == 0 && SecondAt(0, t) == 0
  {
    NumberOfDate(Date(year, 7, 6));
    KnownDate(t, Date(year, 7, 6), 17);
  }
}
