/** Calendar arithmetic behind getWeekRange, getMonthRange and the daily report
    window. Days are integer day numbers counted from 1970-01-01 (day 0) on the
    proleptic Gregorian calendar, computed the way ECMAScript's Date does
    (DayFromYear, MakeDay, WeekDay); instants are integer milliseconds on the
    same local timeline. */
module Calendar {

  const MsPerDay: int := 86400000
  /** 23:59:59.999 as milliseconds after midnight (setHours(23, 59, 59, 999)). */
  const LastMsOfDay: int := 86399999
  /** 23:59:59 as milliseconds after midnight ("T23:59:59"). */
  const LastSecondOfDay: int := 86399000

  /** An inclusive window of instants in milliseconds. */
  datatype Range = Range(start: int, end: int)

  predicate IsLeapYear(y: int) {
    y % 4 == 0 && (y % 100 != 0 || y % 400 == 0)
  }

  function DaysInYear(y: int): int {
    if IsLeapYear(y) then 366 else 365
  }

  /** Day number of January 1st of year y (ECMAScript DayFromYear, floor division). */
  function DayFromYear(y: int): int {
    365 * (y - 1970) + (y - 1969) / 4 - (y - 1901) / 100 + (y - 1601) / 400
  }

  /** Length of month m (0 = January) of year y. */
  function DaysInMonth(y: int, m: nat): (n: int)
    requires m < 12
    ensures 28 <= n <= 31
  {
    if m == 1 then (if IsLeapYear(y) then 29 else 28)
    else if m == 3 || m == 5 || m == 8 || m == 10 then 30
    else 31
  }

  /** Days of year y before the first of month m. */
  function DaysBeforeMonth(y: int, m: nat): (n: int)
    requires m <= 12
    ensures 28 * m <= n <= 31 * m
  {
    if m == 0 then 0 else DaysBeforeMonth(y, m - 1) + DaysInMonth(y, m - 1)
  }

  /** new Date(year, month, date) as a day number (ECMAScript MakeDay): the month
      index is normalised into a year and a month 0..11 by floor division, and the
      date counts on from the first of that month, so 0 and negative dates or
      dates past the month's end fall into neighbouring months. */
  function MakeDay(year: int, month: int, date: int): int {
    var ym := year + month / 12;
    var mn := month % 12;
    DayFromYear(ym) + DaysBeforeMonth(ym, mn) + date - 1
  }

  /** The year new Date(year, month, date) works in (ECMAScript MakeFullYear):
      a year from 0 to 99 stands for 1900 to 1999. */
  function FullYear(year: int): int {
    if 0 <= year <= 99 then 1900 + year else year
  }

  /** Day of the week, 0 = Sunday, 1 = Monday (1970-01-01 was a Thursday). */
  function WeekDay(day: int): (w: int)
    ensures 0 <= w < 7
  {
    (day + 4) % 7
  }

  predicate IsValidDate(y: int, m: int, d: int) {
    0 <= m < 12 && 1 <= d <= DaysInMonth(y, m)
  }

  // ---------------------------------------------------------------------------
  // Consistency of the year and month lengths

  /** The ECMAScript year formula and the leap-year rule agree: consecutive
      January 1sts are DaysInYear apart. */
  lemma DayFromYearNext(y: int)
    ensures DayFromYear(y + 1) == DayFromYear(y) + DaysInYear(y)
  {
    FourYearStep(y);
    CenturyStep(y);
    FourCenturyStep(y);
    CenturyIsFourYear(y);
    FourCenturyIsCentury(y);
  }

  lemma CenturyIsFourYear(y: int)
    ensures y % 100 == 0 ==> y % 4 == 0
  {
    var q := y / 100;
    assert y == 100 * q + y % 100;
    assert 100 * q == 4 * (25 * q);
  }

  lemma FourCenturyIsCentury(y: int)
    ensures y % 400 == 0 ==> y % 100 == 0
  {
    var q := y / 400;
    assert y == 400 * q + y % 400;
    assert 400 * q == 100 * (4 * q);
  }

  lemma FourYearStep(y: int)
    ensures (y + 1 - 1969) / 4 == (y - 1969) / 4 + (if y % 4 == 0 then 1 else 0)
  {
  }

  lemma CenturyStep(y: int)
    ensures (y + 1 - 1901) / 100 == (y - 1901) / 100 + (if y % 100 == 0 then 1 else 0)
  {
  }

  lemma FourCenturyStep(y: int)
    ensures (y + 1 - 1601) / 400 == (y - 1601) / 400 + (if y % 400 == 0 then 1 else 0)
  {
  }

  /** The twelve month lengths add up to the year length. */
  lemma MonthsFillYear(y: int)
    ensures DaysBeforeMonth(y, 12) == DaysInYear(y)
  {
    var feb := DaysInMonth(y, 1);
    assert DaysBeforeMonth(y, 1) == 31;
    assert DaysBeforeMonth(y, 2) == 31 + feb;
    assert DaysBeforeMonth(y, 3) == 62 + feb;
    assert DaysBeforeMonth(y, 4) == 92 + feb;
    assert DaysBeforeMonth(y, 5) == 123 + feb;
    assert DaysBeforeMonth(y, 6) == 153 + feb;
    assert DaysBeforeMonth(y, 7) == 184 + feb;
    assert DaysBeforeMonth(y, 8) == 215 + feb;
    assert DaysBeforeMonth(y, 9) == 245 + feb;
    assert DaysBeforeMonth(y, 10) == 276 + feb;
    assert DaysBeforeMonth(y, 11) == 306 + feb;
  }

  /** The first of the month after (year, month) is DaysInMonth days after the first
      of (year, month), for every month index, including those MakeDay normalises. */
  lemma NextMonthStart(year: int, month: int)
    ensures MakeDay(year, month + 1, 1) == MakeDay(year, month, 1) + DaysInMonth(year + month / 12, month % 12)
  {
    var ym, mn := year + month / 12, month % 12;
    if mn < 11 {
      assert (month + 1) / 12 == month / 12 && (month + 1) % 12 == mn + 1;
    } else {
      assert (month + 1) / 12 == month / 12 + 1 && (month + 1) % 12 == 0;
      DayFromYearNext(ym);
      MonthsFillYear(ym);
    }
  }

  lemma {:induction false} DayFromYearIncreasing(y: int, y': int)
    requires y < y'
    ensures DayFromYear(y) + DaysInYear(y) <= DayFromYear(y')
    decreases y' - y
  {
    DayFromYearNext(y);
    if y + 1 < y' {
      DayFromYearIncreasing(y + 1, y');
    }
  }

  lemma {:induction false} DaysBeforeMonthIncreasing(y: int, m: nat, m': nat)
    requires m < m' <= 12
    ensures DaysBeforeMonth(y, m) + DaysInMonth(y, m) <= DaysBeforeMonth(y, m')
    decreases m' - m
  {
    if m + 1 < m' {
      DaysBeforeMonthIncreasing(y, m + 1, m');
    }
  }

  /** On valid dates MakeDay is strictly increasing in calendar order, so a day
      number names exactly one valid (year, month, date). */
  lemma MakeDayOrdered(y: int, m: int, d: int, y': int, m': int, d': int)
    requires IsValidDate(y, m, d) && IsValidDate(y', m', d')
    requires y < y' || (y == y' && (m < m' || (m == m' && d < d')))
    ensures MakeDay(y, m, d) < MakeDay(y', m', d')
  {
    assert m / 12 == 0 && m % 12 == m && m' / 12 == 0 && m' % 12 == m';
    assert MakeDay(y, m, d) == DayFromYear(y) + DaysBeforeMonth(y, m) + d - 1;
    assert MakeDay(y', m', d') == DayFromYear(y') + DaysBeforeMonth(y', m') + d' - 1;
    if y < y' {
      DaysBeforeMonthIncreasing(y, m, 12);
      MonthsFillYear(y);
      DayFromYearIncreasing(y, y');
    } else if m < m' {
      DaysBeforeMonthIncreasing(y, m, m');
    }
  }

  lemma MakeDayInjective(y: int, m: int, d: int, y': int, m': int, d': int)
    requires IsValidDate(y, m, d) && IsValidDate(y', m', d')
    requires MakeDay(y, m, d) == MakeDay(y', m', d')
    ensures y == y' && m == m' && d == d'
  {
    if y < y' || (y == y' && (m < m' || (m == m' && d < d'))) {
      MakeDayOrdered(y, m, d, y', m', d');
    } else if y' < y || (y == y' && (m' < m || (m == m' && d' < d))) {
      MakeDayOrdered(y', m', d', y, m, d);
    }
  }

  /** The date argument of MakeDay only counts on from the first of the month. */
  lemma MakeDayDate(y: int, m: int, d: int)
    ensures MakeDay(y, m, d) == MakeDay(y, m, 1) + d - 1
  {
  }

  // ---------------------------------------------------------------------------
  // getMonthRange (script.js:221-227)

  /** The month window for a "YYYY-MM" designator already split into year and
      month (1 = January): from new Date(year, month - 1, 1) at midnight to
      new Date(year, month, 0), "day 0 of the next month", at 23:59:59.999. */
  function MonthRange(year: int, month: int): Range {
    var y := FullYear(year);
    var startDay := MakeDay(y, month - 1, 1);
    var endDay := MakeDay(y, month, 0);
    Range(startDay * MsPerDay, endDay * MsPerDay + LastMsOfDay)
  }

  /** For a month 1..12, the window opens on day 1 of that month and closes on its
      last calendar day at 23:59:59.999, covering exactly that month's days. */
  lemma MonthRangeIsWholeMonth(year: int, month: int)
    requires 1 <= month <= 12
    ensures var r, y := MonthRange(year, month), FullYear(year);
      && r.start == MakeDay(y, month - 1, 1) * MsPerDay
      && r.end == MakeDay(y, month - 1, DaysInMonth(y, month - 1)) * MsPerDay + LastMsOfDay
      && r.end - r.start + 1 == DaysInMonth(y, month - 1) * MsPerDay
      && r.start < r.end
  {
    var y, mo := FullYear(year), month - 1;
    var n := DaysInMonth(y, mo);
    assert mo / 12 == 0 && mo % 12 == mo;
    NextMonthStart(y, mo);
    MakeDayDate(y, month, 0);
    MakeDayDate(y, mo, n);
  }

  /** Whatever month number Number() produced, the window is one whole
      normalised month: between 28 and 31 days long. */
  lemma MonthRangeLength(year: int, month: int)
    ensures var r, y := MonthRange(year, month), FullYear(year);
      r.end - r.start + 1 == DaysInMonth(y + (month - 1) / 12, (month - 1) % 12) * MsPerDay
      && 28 * MsPerDay <= r.end - r.start + 1 <= 31 * MsPerDay
  {
    NextMonthStart(FullYear(year), month - 1);
  }

  /** February has 29 days exactly in leap years, so the February window ends on
      the 29th in a leap year and on the 28th otherwise. */
  lemma FebruaryRange(year: int)
    ensures var y := FullYear(year);
      MonthRange(year, 2).end == MakeDay(y, 1, if IsLeapYear(y) then 29 else 28) * MsPerDay + LastMsOfDay
  {
    MonthRangeIsWholeMonth(year, 2);
  }

  // ---------------------------------------------------------------------------
  // getWeekRange (script.js:209-219)

  /** new Date(year, 0, 1 + (week - 1) * 7): January 1st plus (week - 1) weeks. */
  function WeekAnchor(year: int, week: int): (d: int)
    ensures d == DayFromYear(FullYear(year)) + (week - 1) * 7
  {
    MakeDay(FullYear(year), 0, 1 + (week - 1) * 7)
  }

  /** Shifting a day by k days shifts its weekday by k, modulo 7. */
  lemma WeekDayShift(d: int, k: int)
    ensures WeekDay(d + k) == (WeekDay(d) + k) % 7
  {
  }

  /** The day stepped back with setDate(getDate() - (getDay() - 1 + 7) % 7), unless
      it already is a Monday: the Monday on or before d. */
  function MondayOnOrBefore(d: int): (m: int)
    ensures WeekDay(m) == 1 && m <= d < m + 7
  {
    var back := (WeekDay(d) - 1 + 7) % 7;
    WeekDayShift(d, -back);
    if WeekDay(d) != 1 then d - back else d
  }

  lemma MondayOnOrBeforeShift(d: int)
    ensures MondayOnOrBefore(d + 7) == MondayOnOrBefore(d) + 7
  {
    WeekDayShift(d, 7);
  }

  /** The anchor of the week stepped back to a Monday. */
  function WeekStartDay(year: int, week: int): int {
    MondayOnOrBefore(WeekAnchor(year, week))
  }

  lemma WeekStartIsMondayBeforeAnchor(year: int, week: int)
    ensures var d := WeekStartDay(year, week);
      WeekDay(d) == 1 && d <= WeekAnchor(year, week) < d + 7
  {
  }

  /** The week window for a "YYYY-Www" designator already split into year and
      week: from the Monday at 00:00:00.000 to six days later at 23:59:59.999. */
  function WeekRange(year: int, week: int): Range {
    var d := WeekStartDay(year, week);
    Range(d * MsPerDay, (d + 6) * MsPerDay + LastMsOfDay)
  }

  /** The window starts on a Monday at midnight that is on or before
      January 1st + (week - 1) * 7 days and less than a week before it, and it
      spans exactly seven days. */
  lemma WeekRangeSpansMondayToSunday(year: int, week: int)
    ensures var r := WeekRange(year, week);
      && r.start % MsPerDay == 0 && WeekDay(r.start / MsPerDay) == 1
      && r.start <= WeekAnchor(year, week) * MsPerDay < r.start + 7 * MsPerDay
      && r.end - r.start + 1 == 7 * MsPerDay
  {
    var d := WeekStartDay(year, week);
    WeekStartIsMondayBeforeAnchor(year, week);
    assert (d * MsPerDay) / MsPerDay == d && (d * MsPerDay) % MsPerDay == 0;
  }

  /** Consecutive week numbers give consecutive Mondays. */
  lemma WeekStartsSevenApart(year: int, week: int)
    ensures WeekStartDay(year, week + 1) == WeekStartDay(year, week) + 7
  {
    MondayOnOrBeforeShift(WeekAnchor(year, week));
  }

  /** Monday of ISO 8601 week 1: the Monday of the week holding January 4th. */
  function IsoWeekOneMonday(year: int): int {
    var jan4 := MakeDay(year, 0, 4);
    jan4 - (WeekDay(jan4) + 6) % 7
  }

  /** Week 1 as computed here is the Monday on or before January 1st. It agrees
      with ISO 8601 exactly when January 1st falls on Monday to Thursday; when it
      falls on Friday, Saturday or Sunday every week starts seven days earlier
      than the ISO week of the same number. */
  lemma WeekOneVersusIso(year: int)
    ensures var y := FullYear(year);
      1 <= WeekDay(DayFromYear(y)) <= 4 ==> WeekStartDay(year, 1) == IsoWeekOneMonday(y)
    ensures var y := FullYear(year);
      !(1 <= WeekDay(DayFromYear(y)) <= 4) ==> WeekStartDay(year, 1) == IsoWeekOneMonday(y) - 7
  {
    var y := FullYear(year);
    WeekOneStart(year);
    IsoWeekOneFromJanuaryFirst(y);
    MondayVersusIso(DayFromYear(y));
  }

  lemma WeekOneStart(year: int)
    ensures WeekStartDay(year, 1) == MondayOnOrBefore(DayFromYear(FullYear(year)))
  {
  }

  lemma IsoWeekOneFromJanuaryFirst(y: int)
    ensures var jan1 := DayFromYear(y);
      IsoWeekOneMonday(y) == jan1 + 3 - (WeekDay(jan1 + 3) + 6) % 7
  {
    assert MakeDay(y, 0, 4) == DayFromYear(y) + 3;
  }

  /** The Monday on or before a day d against the Monday of the week holding d + 3. */
  lemma MondayVersusIso(d: int)
    ensures var iso := d + 3 - (WeekDay(d + 3) + 6) % 7;
      && (1 <= WeekDay(d) <= 4 ==> MondayOnOrBefore(d) == iso)
      && (!(1 <= WeekDay(d) <= 4) ==> MondayOnOrBefore(d) == iso - 7)
  {
    WeekDayShift(d, 3);
    var w := WeekDay(d);
    assert MondayOnOrBefore(d) == d - (w + 6) % 7;
    assert WeekDay(d + 3) == (w + 3) % 7;
  }

  /** A two-digit year in a "YYYY-MM" or "YYYY-Www" designator selects the
      same window as the year 1900 later, so year 0050 means 1950. */
  lemma TwoDigitYears(year: int, month: int, week: int)
    requires 0 <= year <= 99
    ensures MonthRange(year, month) == MonthRange(1900 + year, month)
    ensures WeekRange(year, week) == WeekRange(1900 + year, week)
  {
    assert FullYear(1900 + year) == 1900 + year;
  }

  // ---------------------------------------------------------------------------
  // Daily window (script.js:439-440)

  /** new Date(date + 'T00:00:00') to new Date(date + 'T23:59:59') for a date
      (year, month 1..12, day): the end carries no milliseconds. The date string
      is parsed as written, so a year from 0 to 99 is not moved to the 1900s. */
  function DayRange(year: int, month: int, day: int): Range {
    var d := MakeDay(year, month - 1, day);
    Range(d * MsPerDay, d * MsPerDay + LastSecondOfDay)
  }

  /** The daily window starts at midnight of the given date and holds every
      instant of that day up to 23:59:59.000; the last 999 ms of the day fall
      outside it. */
  lemma DayRangeCoversDay(year: int, month: int, day: int, t: int)
    requires IsValidDate(year, month - 1, day)
    ensures var r := DayRange(year, month, day);
      && r.start == MakeDay(year, month - 1, day) * MsPerDay
      && (r.start <= t <= r.end <==> t / MsPerDay == MakeDay(year, month - 1, day) && t % MsPerDay <= LastSecondOfDay)
  {
  }
}
