/** The proleptic Gregorian calendar as Python's datetime.date computes it:
    month lengths, the ordinal day number (0001-01-01 is day 1), the
    weekday (Monday is 0) and the day of the year. */
module Calendar {

  predicate IsLeap(y: int) {
    y % 4 == 0 && (y % 100 != 0 || y % 400 == 0)
  }

  function DaysInMonth(y: int, m: int): (n: nat)
    requires 1 <= m <= 12
    ensures 28 <= n <= 31
    ensures n == 29 <==> m == 2 && IsLeap(y)
  {
    if m == 2 then (if IsLeap(y) then 29 else 28)
    else if m == 4 || m == 6 || m == 9 || m == 11 then 30
    else 31
  }

  /** The dates datetime.date accepts (years 1 to 9999). */
  predicate ValidDate(y: int, m: int, d: int) {
    1 <= y <= 9999 && 1 <= m <= 12 && 1 <= d <= DaysInMonth(y, m)
  }

  /** Days of the year that lie before the first of month m. */
  function DaysBeforeMonth(y: int, m: int): nat
    requires 1 <= m <= 12
  {
    if m == 1 then 0 else DaysBeforeMonth(y, m - 1) + DaysInMonth(y, m - 1)
  }

  /** Days before January 1st of year y, counted from 0001-01-01. */
  function DaysBeforeYear(y: int): int
    requires y >= 1
  {
    var p := y - 1;
    p * 365 + p / 4 - p / 100 + p / 400
  }

  /** date(y, m, d).toordinal(). */
  function Ordinal(y: int, m: int, d: int): int
    requires ValidDate(y, m, d)
  {
    DaysBeforeYear(y) + DaysBeforeMonth(y, m) + d
  }

  /** date(y, m, d).weekday(): Monday is 0, Sunday is 6. */
  function Weekday(y: int, m: int, d: int): (w: nat)
    requires ValidDate(y, m, d)
    ensures w < 7
  {
    (Ordinal(y, m, d) + 6) % 7
  }

  /** The day of the year, January 1st being 1 (struct_time's tm_yday). */
  function DayOfYear(y: int, m: int, d: int): nat
    requires ValidDate(y, m, d)
  {
    DaysBeforeMonth(y, m) + d
  }

  /** Calendar order: year first, then month, then day. */
  predicate YmdBefore(y1: int, m1: int, d1: int, y2: int, m2: int, d2: int) {
    y1 < y2 || (y1 == y2 && (m1 < m2 || (m1 == m2 && d1 < d2)))
  }

  /** A year has 365 days, 366 in a leap year. */
  lemma YearLength(y: int)
    requires y >= 1
    ensures DaysBeforeYear(y + 1) == DaysBeforeYear(y) + if IsLeap(y) then 366 else 365
  {
    CountStep4(y);
    CountStep100(y);
    CountStep400(y);
  }

  /** Going from y - 1 to y adds a multiple of 4 exactly when 4 divides y;
      likewise for 100 and 400. */
  lemma CountStep4(y: int)
    ensures y / 4 == (y - 1) / 4 + (if y % 4 == 0 then 1 else 0)
  {
  }

  lemma CountStep100(y: int)
    ensures y / 100 == (y - 1) / 100 + (if y % 100 == 0 then 1 else 0)
  {
  }

  lemma CountStep400(y: int)
    ensures y / 400 == (y - 1) / 400 + (if y % 400 == 0 then 1 else 0)
  {
  }

  lemma DecemberEnds(y: int)
    ensures DaysBeforeMonth(y, 12) + DaysInMonth(y, 12) == if IsLeap(y) then 366 else 365
  {
    var leap := if IsLeap(y) then 1 else 0;
    assert DaysBeforeMonth(y, 2) == 31;
    assert DaysBeforeMonth(y, 3) == 59 + leap;
    assert DaysBeforeMonth(y, 4) == 90 + leap;
    assert DaysBeforeMonth(y, 5) == 120 + leap;
    assert DaysBeforeMonth(y, 6) == 151 + leap;
    assert DaysBeforeMonth(y, 7) == 181 + leap;
    assert DaysBeforeMonth(y, 8) == 212 + leap;
    assert DaysBeforeMonth(y, 9) == 243 + leap;
    assert DaysBeforeMonth(y, 10) == 273 + leap;
    assert DaysBeforeMonth(y, 11) == 304 + leap;
    assert DaysBeforeMonth(y, 12) == 334 + leap;
  }

  lemma {:induction false} MonthsBefore(y: int, m1: int, m2: int)
    requires 1 <= m1 < m2 <= 12
    ensures DaysBeforeMonth(y, m1) + DaysInMonth(y, m1) <= DaysBeforeMonth(y, m2)
    decreases m2
  {
    if m1 < m2 - 1 {
      MonthsBefore(y, m1, m2 - 1);
    }
  }

  /** Every day of year y lies before January 1st of any later year. */
  lemma {:induction false} YearsBefore(y1: int, m: int, d: int, y2: int)
    requires ValidDate(y1, m, d) && y1 < y2 <= 10000
    ensures Ordinal(y1, m, d) <= DaysBeforeYear(y2)
    decreases y2 - y1
  {
    if m < 12 {
      MonthsBefore(y1, m, 12);
    }
    DecemberEnds(y1);
    YearLength(y1);
    if y1 + 1 < y2 {
      YearsBefore(y1 + 1, 1, 1, y2);
    }
  }

  lemma OrdinalIncreasing(y1: int, m1: int, d1: int, y2: int, m2: int, d2: int)
    requires ValidDate(y1, m1, d1) && ValidDate(y2, m2, d2)
    requires YmdBefore(y1, m1, d1, y2, m2, d2)
    ensures Ordinal(y1, m1, d1) < Ordinal(y2, m2, d2)
  {
    if y1 < y2 {
      YearsBefore(y1, m1, d1, y2);
    } else if m1 < m2 {
      MonthsBefore(y1, m1, m2);
    }
  }

  /** The ordinal numbers days in calendar order, one number per day. */
  lemma OrdinalIsCalendarOrder(y1: int, m1: int, d1: int, y2: int, m2: int, d2: int)
    requires ValidDate(y1, m1, d1) && ValidDate(y2, m2, d2)
    ensures YmdBefore(y1, m1, d1, y2, m2, d2) <==> Ordinal(y1, m1, d1) < Ordinal(y2, m2, d2)
    ensures (y1, m1, d1) == (y2, m2, d2) <==> Ordinal(y1, m1, d1) == Ordinal(y2, m2, d2)
  {
    if YmdBefore(y1, m1, d1, y2, m2, d2) {
      OrdinalIncreasing(y1, m1, d1, y2, m2, d2);
    } else if YmdBefore(y2, m2, d2, y1, m1, d1) {
      OrdinalIncreasing(y2, m2, d2, y1, m1, d1);
    }
  }

  /** The ordinal of the next day is one more, across month and year ends. */
  lemma NextDayOrdinal(y: int, m: int, d: int, y': int, m': int, d': int)
    requires ValidDate(y, m, d) && ValidDate(y', m', d')
    requires NextDay(y, m, d, y', m', d')
    ensures Ordinal(y', m', d') == Ordinal(y, m, d) + 1
  {
    if d == DaysInMonth(y, m) && m == 12 {
      DecemberEnds(y);
      YearLength(y);
    }
  }

  /** The weekday moves on by one from each day to the next, across month
      and year ends. */
  lemma NextDayWeekday(y: int, m: int, d: int, y': int, m': int, d': int)
    requires ValidDate(y, m, d) && ValidDate(y', m', d')
    requires NextDay(y, m, d, y', m', d')
    ensures Weekday(y', m', d') == (Weekday(y, m, d) + 1) % 7
  {
    NextDayOrdinal(y, m, d, y', m', d');
    WeekdayStep(Ordinal(y, m, d));
  }

  lemma WeekdayStep(o: int)
    ensures (o + 1 + 6) % 7 == ((o + 6) % 7 + 1) % 7
  {
    var q, r := (o + 6) / 7, (o + 6) % 7;
    assert o + 7 == 7 * q + (r + 1);
  }

  /** (y', m', d') is the calendar day after (y, m, d). */
  predicate NextDay(y: int, m: int, d: int, y': int, m': int, d': int)
    requires ValidDate(y, m, d)
  {
    if d < DaysInMonth(y, m) then y' == y && m' == m && d' == d + 1
    else if m < 12 then y' == y && m' == m + 1 && d' == 1
    else y' == y + 1 && m' == 1 && d' == 1
  }
}
