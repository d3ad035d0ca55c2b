/**
 From a record of date and time to seconds, and relative months and weekdays.
 */
module DateArithmetic {
  import opened DateGrammar
  import opened DateActions
  import opened Calendar

  const EPOCH := 1970
  const LAST_YEAR := 2038

  function ToSeconds(hours: int, minutes: int, seconds: int, meridian: MeridianMode): int {
    if minutes < 0 || minutes > 59 || seconds < 0 || seconds > 59 then -1 else
    match meridian
    case Mer24 => if hours < 0 || hours > 23 then -1 else (hours * 60 + minutes) * 60 + seconds
    case Am =>
      if hours < 1 || hours > 12 then -1
      else ((if hours == 12 then 0 else hours) * 60 + minutes) * 60 + seconds
    case Pm =>
      if hours < 1 || hours > 12 then -1
      else (((if hours == 12 then 0 else hours) + 12) * 60 + minutes) * 60 + seconds
  }

  // The hour of the day a clock shows
  function Hour24(hours: int, meridian: MeridianMode): int {
    match meridian
    case Mer24 => hours
    case Am => hours % 12
    case Pm => hours % 12 + 12
  }

  // A time is accepted if it is on the clock it is read from; its seconds are then those since midnight.
  lemma ToSecondsMeaning(hours: int, minutes: int, seconds: int, meridian: MeridianMode)
    ensures var s := ToSeconds(hours, minutes, seconds, meridian);
            && (0 <= s <==> 0 <= minutes < 60 && 0 <= seconds < 60
                            && (if meridian == Mer24 then 0 <= hours < 24 else 1 <= hours <= 12))
            && (0 <= s ==> s == TimeOfDay(Hour24(hours, meridian), minutes, seconds) < SECSPERDAY)
            && -1 <= s
  {
  }

  // Years are made positive, and two-digit years lie between 1970 and 2069.
  function FullYear(year: int): int {
    var y := if year < 0 then -year else year;
    if y < 70 then y + 2000 else if y < 100 then y + 1900 else y
  }

  // One or two digits name the year between 1970 and 2069 that ends in them; more digits name the year itself.
  lemma FullYearMeaning(year: int)
    ensures var y, full := if year < 0 then -year else year, FullYear(year);
            && (y < 100 ==> 1970 <= full < 2070 && full % 100 == y)
            && (y >= 100 ==> full == y)
  {
  }

  // What Convert accepts: a date of the calendar in its range of years, and a time of day
  predicate Accepts(month: int, day: int, year: int, hours: int, minutes: int, seconds: int, mer: MeridianMode) {
    && EPOCH <= FullYear(year) <= LAST_YEAR
    && ValidDate(FullYear(year), month, day)
    && ToSeconds(hours, minutes, seconds, mer) >= 0
  }

  // The second that a date and time denote by the calendar, in a zone west of Greenwich by so many minutes
  function GregorianSeconds(month: int, day: int, year: int, hours: int, minutes: int, seconds: int,
                            mer: MeridianMode, zone: int): int
    requires Accepts(month, day, year, hours, minutes, seconds, mer)
  {
    DayCount(FullYear(year), month, day) * SECSPERDAY + TimeOfDay(Hour24(hours, mer), minutes, seconds) + zone * 60
  }

  function Converted(month: int, day: int, year: int, hours: int, minutes: int, seconds: int,
                     mer: MeridianMode, dst: DstMode, zone: int): int
  {
    if !Accepts(month, day, year, hours, minutes, seconds, mer) then -1 else
    var julian := GregorianSeconds(month, day, year, hours, minutes, seconds, mer, zone);
    if dst == DstOn || (dst == DstMaybe && Localtime(julian).isdst != 0) then julian - 60 * 60 else julian
  }

  // The two loops of Convert: days before the month, then before the year
  method CountDays(year: int, month: int, day: int, daysInMonth: array<int>) returns (julian: int)
    requires EPOCH <= year <= LAST_YEAR && 1 <= month <= 12
    requires daysInMonth.Length == 12 && forall i :: 0 <= i < 12 ==> daysInMonth[i] == MonthLength(year, i + 1)
    ensures julian == DayCount(year, month, day)
  {
    assert DaysToYear(EPOCH) == 0;
    hide Leap, DaysToYear;
    julian := day - 1;
    var i := 0;
    while i < month - 1
      invariant 0 <= i <= month - 1
      invariant julian == day - 1 + DaysToMonth(year, i + 1)
    {
      julian := julian + daysInMonth[i];
      i := i + 1;
    }
    i := EPOCH;
    while i < year
      invariant EPOCH <= i <= year
      invariant julian == day - 1 + DaysToMonth(year, month) + DaysToYear(i)
    {
      DaysToNextYear(i);
      EveryFourthYear(i);
      julian := julian + 365 + if i % 4 == 0 then 1 else 0;
      i := i + 1;
    }
  }

  // The table of Convert, with February as the year has it
  method MonthTable(year: int) returns (daysInMonth: array<int>)
    ensures daysInMonth.Length == 12 && forall i :: 0 <= i < 12 ==> daysInMonth[i] == MonthLength(year, i + 1)
  {
    daysInMonth := new int[] [31, 0, 31, 30, 31, 30, 31, 31, 30, 31, 30, 31];
    daysInMonth[1] := if year % 4 == 0 && (year % 100 != 0 || year % 400 == 0) then 29 else 28;
  }

  // Convert counts days month by month and year by year, taking every fourth year for a leap year.
  method Convert(month: int, day: int, givenYear: int, hours: int, minutes: int, seconds: int,
                 mer: MeridianMode, dst: DstMode, zone: int)
    returns (julian: int)
    ensures julian == Converted(month, day, givenYear, hours, minutes, seconds, mer, dst, zone)
  {
    var year := givenYear;
    if year < 0 {
      year := -year;
    }
    if year < 70 {
      year := year + 2000;
    } else if year < 100 {
      year := year + 1900;
    }
    assert year == FullYear(givenYear);
    hide FullYear, Leap, MonthLength, DayCount, Localtime, ToSeconds, Hour24, TimeOfDay;
    var daysInMonth := MonthTable(year);
    hide Converted, GregorianSeconds, Accepts;
    AcceptsByParts(month, day, givenYear, hours, minutes, seconds, mer);
    ConvertedCases(month, day, givenYear, hours, minutes, seconds, mer, dst, zone);
    if year < EPOCH || year > LAST_YEAR || month < 1 || month > 12 || day < 1 || day > daysInMonth[month - 1] {
      return -1;
    }
    julian := CountDays(year, month, day, daysInMonth);
    julian := julian * SECSPERDAY;
    julian := julian + zone * 60;
    var tod := ToSeconds(hours, minutes, seconds, mer);
    if tod < 0 {
      return -1;
    }
    julian := julian + tod;
    if dst == DstOn || (dst == DstMaybe && Localtime(julian).isdst != 0) {
      julian := julian - 60 * 60;
    }
  }

  lemma AcceptsByParts(month: int, day: int, year: int, hours: int, minutes: int, seconds: int, mer: MeridianMode)
    ensures Accepts(month, day, year, hours, minutes, seconds, mer)
       <==> (&& EPOCH <= FullYear(year) <= LAST_YEAR
             && 1 <= month <= 12 && 1 <= day <= MonthLength(FullYear(year), month)
             && ToSeconds(hours, minutes, seconds, mer) >= 0)
  {
    hide FullYear, MonthLength, ToSeconds;
  }

  lemma ConvertedCases(month: int, day: int, year: int, hours: int, minutes: int, seconds: int,
                       mer: MeridianMode, dst: DstMode, zone: int)
    ensures var c := Converted(month, day, year, hours, minutes, seconds, mer, dst, zone);
            if !Accepts(month, day, year, hours, minutes, seconds, mer) then c == -1
            else
              var julian := DayCount(FullYear(year), month, day) * SECSPERDAY + zone * 60
                            + ToSeconds(hours, minutes, seconds, mer);
              c == if dst == DstOn || (dst == DstMaybe && Localtime(julian).isdst != 0) then julian - 3600 else julian
  {
    hide Localtime, DayCount, FullYear, ValidDate, Hour24, TimeOfDay;
    ToSecondsMeaning(hours, minutes, seconds, mer);
    hide ToSeconds;
  }

  // Two digits are taken up to 38, for this century, and from 70 on, for the last one.
  lemma TwoDigitYears(month: int, day: int, yy: int, hours: int, minutes: int, seconds: int)
    requires 0 <= yy < 100
    ensures Accepts(month, day, yy, hours, minutes, seconds, Mer24)
       <==> (&& (yy <= 38 || 70 <= yy)
             && ValidDate(if yy <= 38 then 2000 + yy else 1900 + yy, month, day)
             && 0 <= hours < 24 && 0 <= minutes < 60 && 0 <= seconds < 60)
  {
    FullYearMeaning(yy);
    ToSecondsMeaning(hours, minutes, seconds, Mer24);
  }

  lemma SecondOfJanuary2035()
    ensures Converted(1, 2, 35, 0, 0, 0, Mer24, DstOff, 0) == 2051308800
  {
    hide Localtime;
    assert DayCount(2035, 1, 2) == 23742;
  }

  // In the range of years Convert accepts, every fourth year is a leap year.
  lemma EveryFourthYear(y: int)
    requires EPOCH <= y <= LAST_YEAR
    ensures Leap(y) <==> y % 4 == 0
  {
  }

  predicate EarlierMoment(month: int, day: int, year: int, h: int, m: int, s: int,
                          month': int, day': int, year': int, h': int, m': int, s': int) {
    || EarlierDate(year, month, day, year', month', day')
    || (year == year' && month == month' && day == day' && (h < h' || (h == h' && (m < m' || (m == m' && s < s')))))
  }

  // In one zone, with daylight saving either on or off, Convert orders the moments it accepts.
  lemma ConvertIsMonotone(month: int, day: int, year: int, h: int, m: int, s: int, mer: MeridianMode,
                          month': int, day': int, year': int, h': int, m': int, s': int, mer': MeridianMode,
                          dst: DstMode, zone: int)
    requires dst != DstMaybe
    requires Accepts(month, day, year, h, m, s, mer) && Accepts(month', day', year', h', m', s', mer')
    requires EarlierMoment(month, day, FullYear(year), Hour24(h, mer), m, s,
                           month', day', FullYear(year'), Hour24(h', mer'), m', s')
    ensures Converted(month, day, year, h, m, s, mer, dst, zone)
          < Converted(month', day', year', h', m', s', mer', dst, zone)
  {
    hide DayCount, Localtime;
    ToSecondsMeaning(h, m, s, mer);
    ToSecondsMeaning(h', m', s', mer');
    if EarlierDate(FullYear(year), month, day, FullYear(year'), month', day') {
      DayCountIsMonotone(FullYear(year), month, day, FullYear(year'), month', day');
    }
  }

  // Adjusts for a change of daylight saving between two moments.
  function DstCorrect(start: int, future: int): int {
    var startDay, futureDay := (Localtime(start).hour + 1) % 24, (Localtime(future).hour + 1) % 24;
    (future - start) + (startDay - futureDay) * 60 * 60
  }

  // Seconds to the ordinal-th given weekday from start; C's remainder has the sign of its dividend.
  function RelativeDate(start: int, dayOrdinal: int, dayNumber: int): int {
    var now := start + SECSPERDAY * Rem(dayNumber - Localtime(start).wday + 7, 7);
    var weeks := if dayOrdinal <= 0 then dayOrdinal else dayOrdinal - 1;
    DstCorrect(start, now + 7 * SECSPERDAY * weeks)
  }

  function RelativeMonth(start: int, relMonth: int, zone: int): int {
    if relMonth == 0 then 0 else
    var tm := Localtime(start);
    var month := 12 * tm.year + tm.mon + relMonth;
    var year := Quot(month, 12) + 1900;
    DstCorrect(start, Converted(Rem(month, 12) + 1, tm.mday, year, tm.hour, tm.min, tm.sec, Mer24, DstMaybe, zone))
  }

  /**
   The weekday found is the one asked for, at the same time of day, in the week that starts at start and is
   counted by the ordinal: 1 is the first such day at or after start, 0 the same, -1 a week before.
   Together these determine it.
   */
  lemma RelativeDateFindsWeekday(start: int, dayOrdinal: int, dayNumber: int)
    requires 0 <= dayNumber
    ensures var t, weeks := start + RelativeDate(start, dayOrdinal, dayNumber),
                            if dayOrdinal <= 0 then dayOrdinal else dayOrdinal - 1;
            var u, w := Localtime(start), Localtime(t);
            && w.wday == dayNumber % 7
            && w.hour == u.hour && w.min == u.min && w.sec == u.sec
            && start + 7 * weeks * SECSPERDAY <= t < start + 7 * (weeks + 1) * SECSPERDAY
  {
    var u := Localtime(start);
    var weeks := if dayOrdinal <= 0 then dayOrdinal else dayOrdinal - 1;
    hide Localtime, Seconds, ValidTm, RelativeDate;
    var d := (dayNumber - u.wday + 7) % 7;
    RelativeDateInDays(start, dayOrdinal, dayNumber, d + 7 * weeks);
    WeekdayAfter(u.wday, dayNumber, weeks);
    WeekdayFound(start, d, weeks, dayNumber % 7);
  }

  lemma WeekdayFound(start: int, d: int, weeks: int, wday: int)
    requires 0 <= d < 7 && (Localtime(start).wday + (d + 7 * weeks)) % 7 == wday
    ensures var t := start + (d + 7 * weeks) * SECSPERDAY;
            var u, w := Localtime(start), Localtime(t);
            && w.wday == wday && w.hour == u.hour && w.min == u.min && w.sec == u.sec
            && start + 7 * weeks * SECSPERDAY <= t < start + 7 * (weeks + 1) * SECSPERDAY
  {
    hide Localtime, Seconds, ValidTm;
    WholeDaysLater(start, d + 7 * weeks);
    WithinWeek(d, weeks);
  }

  lemma WithinWeek(d: int, weeks: int)
    requires 0 <= d < 7
    ensures 7 * weeks * SECSPERDAY <= (d + 7 * weeks) * SECSPERDAY < 7 * (weeks + 1) * SECSPERDAY
  {
  }

  lemma RelativeDateInDays(start: int, dayOrdinal: int, dayNumber: int, k: int)
    requires 0 <= dayNumber
    requires var weeks := if dayOrdinal <= 0 then dayOrdinal else dayOrdinal - 1;
             k == (dayNumber - Localtime(start).wday + 7) % 7 + 7 * weeks
    ensures start + RelativeDate(start, dayOrdinal, dayNumber) == start + k * SECSPERDAY
  {
    hide Localtime;
    assert Rem(dayNumber - Localtime(start).wday + 7, 7) == (dayNumber - Localtime(start).wday + 7) % 7;
    WholeDaysLater(start, k);
  }

  lemma WeekdayAfter(wday: int, dayNumber: int, weeks: int)
    requires 0 <= wday < 7
    ensures (wday + ((dayNumber - wday + 7) % 7 + 7 * weeks)) % 7 == dayNumber % 7
  {
  }

  // Month k after the month of a broken-down time, counted from January of year 0
  function TargetMonth(tm: Tm, k: int): int {
    12 * (tm.year + 1900) + tm.mon + k
  }

  predicate TargetExists(tm: Tm, k: int) {
    ValidDate(TargetMonth(tm, k) / 12, TargetMonth(tm, k) % 12 + 1, tm.mday)
  }

  // The same day and time of day, k months on
  function Target(tm: Tm, k: int): Tm {
    tm.(year := TargetMonth(tm, k) / 12 - 1900, mon := TargetMonth(tm, k) % 12)
  }

  // Moment t is start moved by k months and nothing else.
  predicate MovedByMonths(start: int, k: int, t: int) {
    var u, w := Localtime(start), Localtime(t);
    && w.mday == u.mday && w.hour == u.hour && w.min == u.min && w.sec == u.sec
    && 12 * w.year + w.mon == 12 * u.year + u.mon + k
  }

  // Whole hours of zone that do not carry the clock past the hour before midnight
  predicate ZoneHarmless(hour: int, zone: int) {
    zone % 60 == 0 && 0 <= (hour + 1) % 24 + zone / 60 < 24
  }

  // There is at most one such moment: the target.
  lemma MovedIsTarget(start: int, k: int, t: int)
    ensures var tm := Localtime(start);
            MovedByMonths(start, k, t) <==> TargetExists(tm, k) && t == Seconds(Target(tm, k))
  {
    var tm, w := Localtime(start), Localtime(t);
    hide Localtime, Seconds;
    if MovedByMonths(start, k, t) {
      MovedReachesTarget(tm, k, w);
    }
    if TargetExists(tm, k) && t == Seconds(Target(tm, k)) {
      LocaltimeOfSeconds(Target(tm, k));
      SplitTarget(TargetMonth(tm, k));
    }
  }

  lemma MovedReachesTarget(tm: Tm, k: int, w: Tm)
    requires ValidTm(tm) && ValidTm(w)
    requires w.mday == tm.mday && w.hour == tm.hour && w.min == tm.min && w.sec == tm.sec
    requires 12 * w.year + w.mon == 12 * tm.year + tm.mon + k
    ensures TargetExists(tm, k) && Seconds(w) == Seconds(Target(tm, k))
  {
    hide DayCount;
    SplitMonth(w.year + 1900, w.mon);
  }

  lemma SplitTarget(n: int)
    ensures 12 * (n / 12) + n % 12 == n
  {
  }

  lemma SplitMonth(y: int, m: int)
    requires 0 <= m < 12
    ensures (12 * y + m) / 12 == y && (12 * y + m) % 12 == m
  {
  }

  // Month arithmetic that stays in range: the code adds the zone, and takes back the change of the hour it causes.
  lemma RelativeMonthInRange(start: int, k: int, zone: int)
    requires k != 0
    requires var tm := Localtime(start); TargetExists(tm, k) && EPOCH <= TargetMonth(tm, k) / 12 <= LAST_YEAR
    ensures RelativeMonth(start, k, zone) == DstCorrect(start, Seconds(Target(Localtime(start), k)) + zone * 60)
  {
    var tm := Localtime(start);
    hide Localtime, Seconds, DstCorrect, Converted, Quot, Rem;
    QuotRem12(12 * tm.year + tm.mon + k);
    ConvertedTarget(tm, k, zone);
  }

  lemma ConvertedTarget(tm: Tm, k: int, zone: int)
    requires ValidTm(tm) && TargetExists(tm, k) && EPOCH <= TargetMonth(tm, k) / 12 <= LAST_YEAR
    ensures var n := TargetMonth(tm, k);
            Converted(n % 12 + 1, tm.mday, n / 12, tm.hour, tm.min, tm.sec, Mer24, DstMaybe, zone)
              == Seconds(Target(tm, k)) + zone * 60
  {
    hide Localtime, DayCount;
    ToSecondsMeaning(tm.hour, tm.min, tm.sec, Mer24);
  }

  lemma QuotRem12(n: int)
    requires n >= 0
    ensures Quot(n, 12) + 1900 == (n + 12 * 1900) / 12 && Rem(n, 12) == (n + 12 * 1900) % 12
  {
  }
}
