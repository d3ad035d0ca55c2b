/**
 The Gregorian calendar as the reference for the date arithmetic, and localtime for a zone on UTC without
 daylight saving.
 */
module Calendar {
  const SECSPERDAY := 86400

  predicate Leap(y: int) {
    y % 4 == 0 && (y % 100 != 0 || y % 400 == 0)
  }

  function YearLength(y: int): int {
    if Leap(y) then 366 else 365
  }

  function MonthLength(y: int, m: int): int {
    if m == 2 then (if Leap(y) then 29 else 28)
    else if m == 4 || m == 6 || m == 9 || m == 11 then 30
    else 31
  }

  predicate ValidDate(y: int, m: int, d: int) {
    1 <= m <= 12 && 1 <= d <= MonthLength(y, m)
  }

  // Days from 1 January 1970 to 1 January of year y
  function DaysToYear(y: int): int {
    365 * (y - 1970) + (y - 1) / 4 - (y - 1) / 100 + (y - 1) / 400 - 477
  }

  // Days from the start of the year to the start of month m
  function DaysToMonth(y: int, m: int): int
    requires 1 <= m
  {
    if m == 1 then 0 else DaysToMonth(y, m - 1) + MonthLength(y, m - 1)
  }

  // Days from 1 January 1970 to a date
  function DayCount(y: int, m: int, d: int): int
    requires 1 <= m
  {
    DaysToYear(y) + DaysToMonth(y, m) + d - 1
  }

  lemma DaysToNextYear(y: int)
    ensures DaysToYear(y + 1) == DaysToYear(y) + YearLength(y)
  {
    QuotientStep(y, 4);
    QuotientStep(y, 100);
    QuotientStep(y, 400);
    CenturyRules(y);
    assert DaysToYear(y + 1) == 365 * (y - 1969) + y / 4 - y / 100 + y / 400 - 477;
  }

  lemma CenturyRules(y: int)
    ensures y % 400 == 0 ==> y % 100 == 0
    ensures y % 100 == 0 ==> y % 4 == 0
  {
  }

  lemma QuotientStep(y: int, k: int)
    requires k == 4 || k == 100 || k == 400
    ensures y / k == (y - 1) / k + if y % k == 0 then 1 else 0
  {
  }

  lemma {:induction false} YearsGrow(y: int, z: int)
    requires y <= z
    ensures DaysToYear(z) - DaysToYear(y) >= 365 * (z - y)
    decreases z - y
  {
    if y < z {
      YearsGrow(y, z - 1);
      DaysToNextYear(z - 1);
    }
  }

  lemma {:induction false} MonthsGrow(y: int, m: int, n: int)
    requires 1 <= m < n <= 13
    ensures DaysToMonth(y, n) >= DaysToMonth(y, m) + MonthLength(y, m)
    decreases n
  {
    if m < n - 1 {
      MonthsGrow(y, m, n - 1);
    }
  }

  lemma MonthsFillYear(y: int)
    ensures DaysToMonth(y, 13) == YearLength(y)
  {
    assert DaysToMonth(y, 1) == 0 && DaysToMonth(y, 2) == 31;
    assert DaysToMonth(y, 3) == YearLength(y) - 306 && DaysToMonth(y, 4) == YearLength(y) - 275;
    assert DaysToMonth(y, 5) == YearLength(y) - 245 && DaysToMonth(y, 6) == YearLength(y) - 214;
    assert DaysToMonth(y, 7) == YearLength(y) - 184 && DaysToMonth(y, 8) == YearLength(y) - 153;
    assert DaysToMonth(y, 9) == YearLength(y) - 122 && DaysToMonth(y, 10) == YearLength(y) - 92;
    assert DaysToMonth(y, 11) == YearLength(y) - 61 && DaysToMonth(y, 12) == YearLength(y) - 31;
  }

  lemma DayInYear(y: int, m: int, d: int)
    requires ValidDate(y, m, d)
    ensures 0 <= DaysToMonth(y, m) + d - 1 < YearLength(y)
  {
    if m > 1 {
      MonthsGrow(y, 1, m);
    }
    MonthsGrow(y, m, 13);
    MonthsFillYear(y);
  }

  predicate EarlierDate(y: int, m: int, d: int, y': int, m': int, d': int) {
    y < y' || (y == y' && (m < m' || (m == m' && d < d')))
  }

  // The day count orders valid dates, so it determines them.
  lemma DayCountIsMonotone(y: int, m: int, d: int, y': int, m': int, d': int)
    requires ValidDate(y, m, d) && ValidDate(y', m', d') && EarlierDate(y, m, d, y', m', d')
    ensures DayCount(y, m, d) < DayCount(y', m', d')
  {
    if y < y' {
      DayInYear(y, m, d);
      DayInYear(y', m', d');
      DaysToNextYear(y);
      YearsGrow(y + 1, y');
    } else if m < m' {
      MonthsGrow(y, m, m');
    }
  }

  // struct tm, with its conventions: months from 0, years from 1900, Sunday is day 0
  datatype Tm = Tm(sec: int, min: int, hour: int, mday: int, mon: int, year: int, wday: int, isdst: int)

  predicate ValidTm(tm: Tm) {
    && ValidDate(tm.year + 1900, tm.mon + 1, tm.mday)
    && 0 <= tm.hour < 24 && 0 <= tm.min < 60 && 0 <= tm.sec < 60
  }

  function TimeOfDay(h: int, m: int, s: int): int {
    (h * 60 + m) * 60 + s
  }

  // The second a broken-down time denotes
  function Seconds(tm: Tm): int
    requires ValidTm(tm)
  {
    DayCount(tm.year + 1900, tm.mon + 1, tm.mday) * SECSPERDAY + TimeOfDay(tm.hour, tm.min, tm.sec)
  }

  // The year that day n after 1 January 1970 lies in, searched from year y
  function YearFrom(y: int, n: int): (r: int)
    ensures DaysToYear(r) <= n < DaysToYear(r + 1)
    decreases n < DaysToYear(y), if n < DaysToYear(y) then DaysToYear(y) - n else n - DaysToYear(y)
  {
    DaysToNextYear(y);
    DaysToNextYear(y - 1);
    if n < DaysToYear(y) then YearFrom(y - 1, n)
    else if n >= DaysToYear(y + 1) then YearFrom(y + 1, n)
    else y
  }

  // The month that day n of the year lies in, searched from month m
  function MonthFrom(y: int, m: int, n: int): (r: int)
    requires 1 <= m <= 12 && DaysToMonth(y, m) <= n < YearLength(y)
    ensures m <= r <= 12 && DaysToMonth(y, r) <= n < DaysToMonth(y, r) + MonthLength(y, r)
    decreases 12 - m
  {
    MonthsFillYear(y);
    if n < DaysToMonth(y, m) + MonthLength(y, m) then m else MonthFrom(y, m + 1, n)
  }

  datatype Date = Date(year: int, month: int, day: int)

  // The date of day n after 1 January 1970
  function DateOf(n: int): (d: Date)
    ensures ValidDate(d.year, d.month, d.day) && DayCount(d.year, d.month, d.day) == n
  {
    var y := YearFrom(1970, n);
    DaysToNextYear(y);
    var m := MonthFrom(y, 1, n - DaysToYear(y));
    Date(y, m, n - DaysToYear(y) - DaysToMonth(y, m) + 1)
  }

  // The time of second s of a day
  function ClockOf(s: int): (c: (int, int, int))
    requires 0 <= s < SECSPERDAY
    ensures 0 <= c.0 < 24 && 0 <= c.1 < 60 && 0 <= c.2 < 60 && TimeOfDay(c.0, c.1, c.2) == s
  {
    (s / 3600, s / 60 % 60, s % 60)
  }

  function Localtime(t: int): (tm: Tm)
    ensures ValidTm(tm) && Seconds(tm) == t
    ensures 0 <= tm.wday < 7 && tm.isdst == 0
  {
    var n := t / SECSPERDAY;
    var d, c := DateOf(n), ClockOf(t % SECSPERDAY);
    Tm(c.2, c.1, c.0, d.day, d.month - 1, d.year - 1900, (n + 4) % 7, 0)
  }

  lemma TimeOfDayInRange(tm: Tm)
    requires ValidTm(tm)
    ensures 0 <= TimeOfDay(tm.hour, tm.min, tm.sec) < SECSPERDAY
  {
  }

  // localtime undoes Seconds: a valid broken-down time is found again from its second.
  lemma LocaltimeOfSeconds(tm: Tm)
    requires ValidTm(tm)
    ensures var u := Localtime(Seconds(tm));
            u.year == tm.year && u.mon == tm.mon && u.mday == tm.mday
            && u.hour == tm.hour && u.min == tm.min && u.sec == tm.sec
  {
    hide Localtime, DayCount;
    var u := Localtime(Seconds(tm));
    TimeOfDayInRange(tm);
    TimeOfDayInRange(u);
    SplitDay(DayCount(tm.year + 1900, tm.mon + 1, tm.mday), TimeOfDay(tm.hour, tm.min, tm.sec),
             DayCount(u.year + 1900, u.mon + 1, u.mday), TimeOfDay(u.hour, u.min, u.sec));
    SplitTime(tm.hour, tm.min, tm.sec, u.hour, u.min, u.sec);
    SameDate(tm.year + 1900, tm.mon + 1, tm.mday, u.year + 1900, u.mon + 1, u.mday);
  }

  lemma SplitDay(a: int, x: int, b: int, y: int)
    requires 0 <= x < SECSPERDAY && 0 <= y < SECSPERDAY && a * SECSPERDAY + x == b * SECSPERDAY + y
    ensures a == b && x == y
  {
  }

  lemma SplitTime(h: int, m: int, s: int, h': int, m': int, s': int)
    requires 0 <= m < 60 && 0 <= s < 60 && 0 <= m' < 60 && 0 <= s' < 60
    requires TimeOfDay(h, m, s) == TimeOfDay(h', m', s')
    ensures h == h' && m == m' && s == s'
  {
  }

  lemma SameDate(y: int, m: int, d: int, y': int, m': int, d': int)
    requires ValidDate(y, m, d) && ValidDate(y', m', d') && DayCount(y, m, d) == DayCount(y', m', d')
    ensures y == y' && m == m' && d == d'
  {
    if EarlierDate(y, m, d, y', m', d') {
      DayCountIsMonotone(y, m, d, y', m', d');
    } else if EarlierDate(y', m', d', y, m, d) {
      DayCountIsMonotone(y', m', d', y, m, d);
    }
  }

  // Adding whole days changes the day of the week accordingly and keeps the time of day.
  lemma WholeDaysLater(t: int, k: int)
    ensures var u, w := Localtime(t), Localtime(t + k * SECSPERDAY);
            w.wday == (u.wday + k) % 7 && w.hour == u.hour && w.min == u.min && w.sec == u.sec
  {
    assert (t + k * SECSPERDAY) / SECSPERDAY == t / SECSPERDAY + k;
    assert (t + k * SECSPERDAY) % SECSPERDAY == t % SECSPERDAY;
    hide DateOf, Seconds, ValidTm;
    var n := t / SECSPERDAY;
    assert (n + k + 4) % 7 == ((n + 4) % 7 + k) % 7;
  }

  // Seconds are counted from Thursday, 1 January 1970.
  predicate IsEpoch(tm: Tm) {
    tm.year == 70 && tm.mon == 0 && tm.mday == 1 && tm.hour == tm.min == tm.sec == 0 && tm.wday == 4
  }

  lemma EpochIsThursday()
    ensures IsEpoch(Localtime(0))
  {
    hide Localtime, IsEpoch;
    FirstSecond(0);
  }

  lemma FirstSecond(t: int)
    requires t == 0
    ensures IsEpoch(Localtime(t))
  {
    hide Localtime, DayCount, ValidDate;
    var tm := Tm(0, 0, 0, 1, 0, 70, 4, 0);
    WeekdayOf(t);
    EpochIsDayZero();
    LocaltimeOfSeconds(tm);
  }

  lemma EpochIsDayZero()
    ensures ValidDate(1970, 1, 1) && DayCount(1970, 1, 1) == 0
  {
    assert DaysToYear(1970) == 0 && DaysToMonth(1970, 1) == 0;
    hide DaysToYear, DaysToMonth;
  }

  lemma WeekdayOf(t: int)
    ensures Localtime(t).wday == (t / SECSPERDAY + 4) % 7
  {
  }
}
