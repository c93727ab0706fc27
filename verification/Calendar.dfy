/**
  The proleptic Gregorian calendar of Go's time package, on whole seconds.

  An Instant counts seconds from 1970-01-01T00:00:00Z. A zone is a fixed number
  of seconds east of UTC. Day 0 is 1970-01-01.
 */
module Calendar {

  type Instant = int

  const DAY := 86400
  const HOUR := 3600
  const MINUTE := 60

  datatype Date = Date(year: int, month: int, day: int)

  predicate IsLeap(year: int) {
    year % 4 == 0 && (year % 100 != 0 || year % 400 == 0)
  }

  function DaysInMonth(year: int, month: int): int {
    if month == 2 then (if IsLeap(year) then 29 else 28)
    else if month == 4 || month == 6 || month == 9 || month == 11 then 30
    else 31
  }

  predicate ValidDate(d: Date) {
    1 <= d.month <= 12 && 1 <= d.day <= DaysInMonth(d.year, d.month)
  }

  function DaysInYear(year: int): int {
    if IsLeap(year) then 366 else 365
  }

  /** Days from 1970-01-01 to the first of January of a year. */
  function DaysBeforeYear(year: int): int
    decreases if year < 1970 then 1970 - year else year - 1970
  {
    if year == 1970 then 0
    else if year > 1970 then DaysBeforeYear(year - 1) + DaysInYear(year - 1)
    else DaysBeforeYear(year + 1) - DaysInYear(year)
  }

  function DaysBeforeMonth(year: int, month: int): int
    requires 1 <= month
  {
    if month == 1 then 0 else DaysBeforeMonth(year, month - 1) + DaysInMonth(year, month - 1)
  }

  function DayNumber(d: Date): int
    requires 1 <= d.month
  {
    DaysBeforeYear(d.year) + DaysBeforeMonth(d.year, d.month) + d.day - 1
  }

  lemma MonthsOfYear(year: int)
    ensures DaysBeforeMonth(year, 13) == DaysInYear(year)
  {
    assert DaysBeforeMonth(year, 2) == 31;
    assert DaysBeforeMonth(year, 3) == 31 + DaysInMonth(year, 2);
    assert DaysBeforeMonth(year, 5) == DaysBeforeMonth(year, 3) + 61;
    assert DaysBeforeMonth(year, 7) == DaysBeforeMonth(year, 5) + 61;
    assert DaysBeforeMonth(year, 9) == DaysBeforeMonth(year, 7) + 62;
    assert DaysBeforeMonth(year, 11) == DaysBeforeMonth(year, 9) + 61;
  }

  lemma {:induction false} MonthsIncrease(year: int, a: int, b: int)
    requires 1 <= a < b
    ensures DaysBeforeMonth(year, a) + DaysInMonth(year, a) <= DaysBeforeMonth(year, b)
  {
    if a + 1 < b { MonthsIncrease(year, a, b - 1); }
  }

  lemma {:induction false} YearsIncrease(a: int, b: int)
    requires a < b
    ensures DaysBeforeYear(a) + DaysInYear(a) <= DaysBeforeYear(b)
    decreases b - a
  {
    assert DaysBeforeYear(b) == DaysBeforeYear(b - 1) + DaysInYear(b - 1);
    if a + 1 < b { YearsIncrease(a, b - 1); }
  }

  /** A valid date is within its year. */
  lemma DateInYear(d: Date)
    requires ValidDate(d)
    ensures DaysBeforeYear(d.year) <= DayNumber(d) < DaysBeforeYear(d.year) + DaysInYear(d.year)
  {
    MonthsOfYear(d.year);
    MonthsIncrease(d.year, d.month, 13);
    if d.month > 1 { MonthsIncrease(d.year, 1, d.month); }
  }

  lemma UniqueDate(d: Date, e: Date)
    requires ValidDate(d) && ValidDate(e)
    requires DayNumber(d) == DayNumber(e)
    ensures d == e
  {
    DateInYear(d);
    DateInYear(e);
    if d.year < e.year { YearsIncrease(d.year, e.year); }
    if e.year < d.year { YearsIncrease(e.year, d.year); }
    if d.month < e.month { MonthsIncrease(d.year, d.month, e.month); }
    if e.month < d.month { MonthsIncrease(d.year, e.month, d.month); }
  }

  /** The calendar's own rules for the day after and the day before. */
  function DayAfter(d: Date): Date {
    if d.day < DaysInMonth(d.year, d.month) then d.(day := d.day + 1)
    else if d.month < 12 then Date(d.year, d.month + 1, 1)
    else Date(d.year + 1, 1, 1)
  }

  function DayBefore(d: Date): Date {
    if d.day > 1 then d.(day := d.day - 1)
    else if d.month > 1 then Date(d.year, d.month - 1, DaysInMonth(d.year, d.month - 1))
    else Date(d.year - 1, 12, 31)
  }

  /** The date n days from d. */
  function DateFrom(d: Date, n: int): (e: Date)
    requires 1 <= d.month <= 12 && 1 <= d.day <= 31
    ensures 1 <= e.month <= 12 && 1 <= e.day <= 31
    decreases if n < 0 then -n else n
  {
    if n == 0 then d
    else if n > 0 then DateFrom(DayAfter(d), n - 1)
    else DateFrom(DayBefore(d), n + 1)
  }

  /** The date of a day, counted from Thursday 1970-01-01. */
  function DateOf(n: int): (d: Date)
    ensures 1 <= d.month <= 12 && 1 <= d.day <= 31
  {
    DateFrom(Date(1970, 1, 1), n)
  }

  lemma DayAfterNumber(d: Date)
    requires ValidDate(d)
    ensures ValidDate(DayAfter(d)) && DayNumber(DayAfter(d)) == DayNumber(d) + 1
  {
    MonthsOfYear(d.year);
    YearsIncrease(d.year, d.year + 1);
  }

  lemma DayBeforeNumber(d: Date)
    requires ValidDate(d)
    ensures ValidDate(DayBefore(d)) && DayNumber(DayBefore(d)) == DayNumber(d) - 1
  {
    MonthsOfYear(d.year - 1);
  }

  lemma {:induction false} DayNumberFrom(d: Date, n: int)
    requires ValidDate(d)
    ensures ValidDate(DateFrom(d, n)) && DayNumber(DateFrom(d, n)) == DayNumber(d) + n
    decreases if n < 0 then -n else n
  {
    if n > 0 {
      DayAfterNumber(d);
      DayNumberFrom(DayAfter(d), n - 1);
    } else if n < 0 {
      DayBeforeNumber(d);
      DayNumberFrom(DayBefore(d), n + 1);
    }
  }

  /** Counting day by day agrees with adding up whole years and months. */
  lemma DayNumberOfDate(n: int)
    ensures ValidDate(DateOf(n)) && DayNumber(DateOf(n)) == n
  {
    DayNumberFrom(Date(1970, 1, 1), n);
  }

  /** A valid date is the only valid date of its day number. */
  lemma DateOfDayNumber(d: Date)
    requires ValidDate(d)
    ensures DateOf(DayNumber(d)) == d
  {
    DayNumberOfDate(DayNumber(d));
    UniqueDate(DateOf(DayNumber(d)), d);
  }

  lemma PreviousDay(n: int)
    ensures DateOf(n - 1) == DayBefore(DateOf(n))
  {
    DayNumberOfDate(n);
    DayNumberOfDate(n - 1);
    DayBeforeNumber(DateOf(n));
    UniqueDate(DateOf(n - 1), DayBefore(DateOf(n)));
  }

  // The fields of an instant in a zone.

  function DayAt(zone: int, t: Instant): int { (t + zone) / DAY }
  function DateAt(zone: int, t: Instant): Date { DateOf(DayAt(zone, t)) }
  function YearAt(zone: int, t: Instant): int { DateAt(zone, t).year }
  /** 0 is Sunday; 1970-01-01 was a Thursday. */
  function WeekdayAt(zone: int, t: Instant): (w: int)
    ensures 0 <= w < 7
  { (DayAt(zone, t) + 4) % 7 }
  function HourAt(zone: int, t: Instant): (h: int)
    ensures 0 <= h < 24
  { (t + zone) % DAY / HOUR }
  function MinuteAt(zone: int, t: Instant): (m: int)
    ensures 0 <= m < 60
  { (t + zone) / MINUTE % 60 }
  function SecondAt(zone: int, t: Instant): (s: int)
    ensures 0 <= s < 60
  { (t + zone) % MINUTE }

  /** time.Date(year, month, day, hour, 0, 0, 0, zone). */
  function InstantOf(zone: int, d: Date, hour: int): Instant
    requires 1 <= d.month <= 12
  {
    DayNumber(d) * DAY + hour * HOUR - zone
  }

  lemma HourOfDay(zone: int, t: Instant, hour: int)
    ensures InstantOf(zone, DateAt(zone, t), hour) == DayAt(zone, t) * DAY + hour * HOUR - zone
  {
    DayNumberOfDate(DayAt(zone, t));
  }

  /** t.Truncate(time.Minute): rounds the absolute time, whatever the zone. */
  function TruncateToMinute(t: Instant): Instant { t - t % MINUTE }

  /** The first second of a year. */
  function YearStart(zone: int, year: int): Instant {
    InstantOf(zone, Date(year, 1, 1), 0)
  }

  /** The year of an instant tells on which side of a new year it lies. */
  lemma YearBound(zone: int, t: Instant, year: int)
    ensures YearAt(zone, t) >= year <==> t >= YearStart(zone, year)
  {
    var d := DateAt(zone, t);
    DayNumberOfDate(DayAt(zone, t));
    DateInYear(d);
    if d.year < year { YearsIncrease(d.year, year); }
    if year < d.year { YearsIncrease(year, d.year); }
  }
}
