/**
 When relative months are right: exactly which moves land on the same day and time of another month, and that
 moving back undoes them.
 */
module RelativeMonths {
  import opened DateGrammar
  import opened DateActions
  import opened Calendar
  import opened DateArithmetic

  predicate InRange(tm: Tm, k: int) {
    TargetExists(tm, k) && EPOCH <= TargetMonth(tm, k) / 12 <= LAST_YEAR
  }

  lemma DstCorrectByHours(start: int, future: int)
    ensures DstCorrect(start, future)
         == future - start + ((Localtime(start).hour + 1) % 24 - (Localtime(future).hour + 1) % 24) * 3600
  {
    hide Localtime;
  }

  lemma RelativeMonthConverts(start: int, k: int, zone: int)
    requires k != 0
    ensures var tm := Localtime(start);
            var n := 12 * tm.year + tm.mon + k;
            RelativeMonth(start, k, zone) == DstCorrect(start,
              Converted(Rem(n, 12) + 1, tm.mday, Quot(n, 12) + 1900, tm.hour, tm.min, tm.sec, Mer24, DstMaybe, zone))
  {
    hide Localtime, DstCorrect, Converted, Quot, Rem;
  }

  // No change of the hour leaves nothing to correct.
  lemma SameHourNeedsNoCorrection(start: int, future: int)
    requires Localtime(start).hour == Localtime(future).hour
    ensures start + DstCorrect(start, future) == future
  {
    hide Localtime, DstCorrect;
    DstCorrectByHours(start, future);
  }

  lemma TargetKeepsHour(start: int, k: int)
    requires TargetExists(Localtime(start), k)
    ensures Localtime(Seconds(Target(Localtime(start), k))).hour == Localtime(start).hour
  {
    hide Localtime, Seconds;
    LocaltimeOfSeconds(Target(Localtime(start), k));
  }

  lemma InRangeLandsOnTarget(start: int, k: int)
    requires k != 0 && InRange(Localtime(start), k)
    ensures start + RelativeMonth(start, k, 0) == Seconds(Target(Localtime(start), k))
  {
    hide Localtime, Seconds, DstCorrect;
    RelativeMonthInRange(start, k, 0);
    TargetKeepsHour(start, k);
    SameHourNeedsNoCorrection(start, Seconds(Target(Localtime(start), k)));
  }

  // Outside the range the result is a moment of 1970 to 2038 at another month, or a second before a full hour.
  lemma OutOfRangeResult(start: int, k: int)
    requires k != 0 && !InRange(Localtime(start), k)
    ensures var t := start + RelativeMonth(start, k, 0);
            (EPOCH <= Localtime(t).year + 1900 <= LAST_YEAR)
            || t == -1 + (Localtime(start).hour + 1) % 24 * 3600
  {
    hide Quot, Rem, RelativeMonth, Localtime, Converted, Seconds, DstCorrect;
    var tm := Localtime(start);
    var n := 12 * tm.year + tm.mon + k;
    var month, year := Rem(n, 12) + 1, Quot(n, 12) + 1900;
    var c := Converted(month, tm.mday, year, tm.hour, tm.min, tm.sec, Mer24, DstMaybe, 0);
    RelativeMonthConverts(start, k, 0);
    if Accepts(month, tm.mday, year, tm.hour, tm.min, tm.sec, Mer24) {
      AcceptedIsLocal(tm, month, year);
      hide Accepts;
      SameHourNeedsNoCorrection(start, c);
    } else {
      RefusedIsMinusOne(month, tm.mday, year, tm.hour, tm.min, tm.sec);
      LastSecondBeforeEpoch();
      DstCorrectByHours(start, -1);
    }
  }

  lemma RefusedIsMinusOne(month: int, day: int, year: int, h: int, m: int, s: int)
    requires !Accepts(month, day, year, h, m, s, Mer24)
    ensures Converted(month, day, year, h, m, s, Mer24, DstMaybe, 0) == -1
  {
  }

  lemma LastSecondBeforeEpoch()
    ensures var u := Localtime(-1);
            u.year == 69 && u.mon == 11 && u.mday == 31 && u.hour == 23 && u.min == 59 && u.sec == 59
  {
    var tm := Tm(59, 59, 23, 31, 11, 69, 0, 0);
    hide Localtime;
    MonthsFillYear(1969);
    assert DaysToMonth(1969, 12) == 334 && DaysToYear(1969) == -365;
    LocaltimeOfSeconds(tm);
  }

  lemma AcceptedIsLocal(tm: Tm, month: int, year: int)
    requires ValidTm(tm) && Accepts(month, tm.mday, year, tm.hour, tm.min, tm.sec, Mer24)
    ensures var c := Converted(month, tm.mday, year, tm.hour, tm.min, tm.sec, Mer24, DstMaybe, 0);
            Localtime(c).hour == tm.hour && Localtime(c).year + 1900 == FullYear(year)
  {
    var u := tm.(mon := month - 1, year := FullYear(year) - 1900);
    hide Localtime, DayCount;
    ToSecondsMeaning(tm.hour, tm.min, tm.sec, Mer24);
    LocaltimeOfSeconds(u);
  }

  /**
   On UTC, moving by months is right exactly if the day exists in the target month and Convert covers its year;
   and by accident if the target is the second that Convert's error value denotes.
   */
  lemma RelativeMonthIsExact(start: int, k: int)
    ensures var tm := Localtime(start);
            var moved := MovedByMonths(start, k, start + RelativeMonth(start, k, 0));
            moved <==> k == 0 || InRange(tm, k) || (TargetExists(tm, k) && Seconds(Target(tm, k)) == -1)
  {
    var tm := Localtime(start);
    hide Localtime, Seconds, DstCorrect;
    var t := start + RelativeMonth(start, k, 0);
    MovedIsTarget(start, k, t);
    if k == 0 {
    } else if InRange(tm, k) {
      InRangeLandsOnTarget(start, k);
    } else {
      OutOfRangeResult(start, k);
      if MovedByMonths(start, k, t) {
        MovedOutOfRange(start, k, t);
      } else if TargetExists(tm, k) && Seconds(Target(tm, k)) == -1 {
        BeforeEpochIsHit(start, k);
      }
    }
  }

  lemma MovedOutOfRange(start: int, k: int, t: int)
    requires k != 0 && !InRange(Localtime(start), k) && MovedByMonths(start, k, t)
    requires EPOCH <= Localtime(t).year + 1900 <= LAST_YEAR || t == -1 + (Localtime(start).hour + 1) % 24 * 3600
    ensures t == -1
  {
    var w := Localtime(t);
    assert 0 <= w.mon < 12;
    hide Localtime, Seconds;
    MovedIsTarget(start, k, t);
    SplitMonth(w.year + 1900, w.mon);
    if t >= 0 {
      DayOfEpoch(t);
    }
  }

  lemma DayOfEpoch(t: int)
    requires 0 <= t < SECSPERDAY
    ensures Localtime(t).year == 70
  {
    hide Localtime, ClockOf, DayCount, TimeOfDay;
    var c := ClockOf(t);
    var tm := Tm(c.2, c.1, c.0, 1, 0, 70, 0, 0);
    EpochIsDayZero();
    LocaltimeOfSeconds(tm);
  }

  lemma BeforeEpochIsHit(start: int, k: int)
    requires var tm := Localtime(start);
             k != 0 && !InRange(tm, k) && TargetExists(tm, k) && Seconds(Target(tm, k)) == -1
    ensures start + RelativeMonth(start, k, 0) == -1
  {
    var tm := Localtime(start);
    hide Localtime, Seconds;
    LocaltimeOfSeconds(Target(tm, k));
    LastSecondBeforeEpoch();
    assert TargetMonth(tm, k) / 12 == 1969 && TargetMonth(tm, k) % 12 == 11;
    assert 12 * tm.year + tm.mon + k == 839;
    assert Quot(839, 12) == 69 && Rem(839, 12) == 11;
  }

  predicate Undone(start: int, k: int) {
    var t := start + RelativeMonth(start, k, 0);
    t + RelativeMonth(t, -k, 0) == start
  }

  // Once a move is right, the move back returns to the start exactly if the start lies in 1970 to 2038 itself, or is
  // the second before.
  lemma RelativeMonthIsUndone(start: int, k: int)
    requires MovedByMonths(start, k, start + RelativeMonth(start, k, 0))
    ensures Undone(start, k) <==> k == 0 || EPOCH <= Localtime(start).year + 1900 <= LAST_YEAR || start == -1
  {
    hide Localtime, RelativeMonth, MovedByMonths, InRange, TargetExists, Seconds, Target;
    var t := start + RelativeMonth(start, k, 0);
    if k == 0 {
      RelativeMonthOfNone(start, 0);
    } else {
      MoveBackReturns(start, k, t, t + RelativeMonth(t, -k, 0));
      MoveBackInRange(start, k, t);
      RelativeMonthIsExact(t, -k);
    }
  }

  lemma RelativeMonthOfNone(start: int, zone: int)
    ensures RelativeMonth(start, 0, zone) == 0
  {
  }

  // A moment moved to is one to move back from: to the start, and nowhere else.
  lemma MoveBackReturns(start: int, k: int, t: int, back: int)
    requires MovedByMonths(start, k, t)
    ensures MovedByMonths(t, -k, back) <==> back == start
  {
    hide Localtime, TargetExists, Seconds, Target;
    assert MovedByMonths(t, -k, start);
    hide MovedByMonths;
    MovedIsTarget(t, -k, start);
    MovedIsTarget(t, -k, back);
  }

  lemma MoveBackInRange(start: int, k: int, t: int)
    requires MovedByMonths(start, k, t)
    ensures var u := Localtime(t);
            && TargetExists(u, -k) && Seconds(Target(u, -k)) == start
            && (InRange(u, -k) <==> EPOCH <= Localtime(start).year + 1900 <= LAST_YEAR)
  {
    hide Localtime, Seconds;
    assert MovedByMonths(t, -k, start);
    SplitMonth(Localtime(start).year + 1900, Localtime(start).mon);
    MovedIsTarget(t, -k, start);
  }

  // ----- Other zones -----

  // Convert takes the month and year that the code computes, perhaps as another year.
  predicate Taken(tm: Tm, k: int) {
    var n := 12 * tm.year + tm.mon + k;
    Accepts(Rem(n, 12) + 1, tm.mday, Quot(n, 12) + 1900, tm.hour, tm.min, tm.sec, Mer24)
  }

  // The year that Convert makes of the year of the target
  function ExpandedYear(tm: Tm, k: int): int {
    FullYear(TargetMonth(tm, k) / 12)
  }

  // The target in that year
  function ExpandedTarget(tm: Tm, k: int): Tm {
    Target(tm, k).(year := ExpandedYear(tm, k) - 1900)
  }

  // The minutes from the target to the same date of the expanded year: 0 for a target in range
  function ExpansionMinutes(tm: Tm, k: int): int {
    var n := TargetMonth(tm, k);
    1440 * (DayCount(ExpandedYear(tm, k), n % 12 + 1, tm.mday) - DayCount(n / 12, n % 12 + 1, tm.mday))
  }

  lemma TakenMonth(tm: Tm, k: int)
    requires Taken(tm, k)
    ensures var n := 12 * tm.year + tm.mon + k;
            Rem(n, 12) == TargetMonth(tm, k) % 12 && Quot(n, 12) + 1900 == TargetMonth(tm, k) / 12
  {
    hide FullYear, ValidDate, ToSeconds;
    var n := 12 * tm.year + tm.mon + k;
    var q, r := Quot(n, 12), Rem(n, 12);
    TakenRem(tm, k);
    assert n == 12 * q + r;
    SplitMonth(q + 1900, r);
  }

  lemma TakenRem(tm: Tm, k: int)
    requires Taken(tm, k)
    ensures 0 <= Rem(12 * tm.year + tm.mon + k, 12) < 12
  {
  }

  // A month taken becomes the second of the expanded target, moved by the zone.
  lemma TakenConverts(tm: Tm, k: int, zone: int)
    requires ValidTm(tm) && TargetExists(tm, k) && Taken(tm, k)
    ensures ValidTm(ExpandedTarget(tm, k))
    ensures var n := TargetMonth(tm, k);
            Converted(n % 12 + 1, tm.mday, n / 12, tm.hour, tm.min, tm.sec, Mer24, DstMaybe, zone)
              == Seconds(ExpandedTarget(tm, k)) + zone * 60
  {
    hide Localtime, DayCount, Quot, Rem;
    TakenMonth(tm, k);
    ToSecondsMeaning(tm.hour, tm.min, tm.sec, Mer24);
  }

  lemma ExpansionIsDistance(tm: Tm, k: int)
    requires ValidTm(tm) && TargetExists(tm, k) && ValidTm(ExpandedTarget(tm, k))
    ensures Seconds(ExpandedTarget(tm, k)) == Seconds(Target(tm, k)) + ExpansionMinutes(tm, k) * 60
  {
    hide DayCount, FullYear;
  }

  lemma TakenInZone(start: int, k: int, zone: int)
    requires var tm := Localtime(start); k != 0 && TargetExists(tm, k) && Taken(tm, k)
    ensures var tm := Localtime(start);
            RelativeMonth(start, k, zone)
              == DstCorrect(start, Seconds(Target(tm, k)) + (zone + ExpansionMinutes(tm, k)) * 60)
  {
    var tm := Localtime(start);
    hide Localtime, Seconds, DstCorrect, Converted, RelativeMonth, ExpansionMinutes, Taken, Quot, Rem;
    RelativeMonthConverts(start, k, zone);
    TakenMonth(tm, k);
    TakenConverts(tm, k, zone);
    ExpansionIsDistance(tm, k);
  }

  // What Convert refuses it refuses in every zone.
  lemma RefusedInZone(start: int, k: int, zone: int)
    requires k != 0 && !Taken(Localtime(start), k)
    ensures RelativeMonth(start, k, zone) == RelativeMonth(start, k, 0)
  {
    hide Localtime, DstCorrect, Accepts, GregorianSeconds, Quot, Rem;
    RelativeMonthConverts(start, k, zone);
    RelativeMonthConverts(start, k, 0);
  }

  lemma InRangeIsTaken(tm: Tm, k: int)
    requires ValidTm(tm) && InRange(tm, k)
    ensures Taken(tm, k) && ExpandedYear(tm, k) == TargetMonth(tm, k) / 12 && ExpansionMinutes(tm, k) == 0
  {
    hide DayCount;
    QuotRem12(12 * tm.year + tm.mon + k);
    ToSecondsMeaning(tm.hour, tm.min, tm.sec, Mer24);
  }

  // A result in any zone is right exactly if nothing is to move; or the target exists and Convert takes its year, and
  // zone and expansion of the year together shift the clock by whole hours without wrapping it; or the target is
  // refused and is the second that the error value denotes.
  predicate MovesInZone(tm: Tm, k: int, zone: int)
    requires ValidTm(tm)
  {
    || k == 0
    || (TargetExists(tm, k)
        && if Taken(tm, k) then ZoneHarmless(tm.hour, zone + ExpansionMinutes(tm, k))
           else Seconds(Target(tm, k)) == -1)
  }

  lemma RelativeMonthInZone(start: int, k: int, zone: int)
    ensures MovedByMonths(start, k, start + RelativeMonth(start, k, zone)) <==> MovesInZone(Localtime(start), k, zone)
  {
    var tm := Localtime(start);
    hide Localtime, Seconds, DstCorrect, Taken, ExpansionMinutes, ZoneHarmless;
    var t := start + RelativeMonth(start, k, zone);
    MovedIsTarget(start, k, t);
    if k == 0 {
      RelativeMonthIsExact(start, 0);
    } else {
      hide RelativeMonth, MovedByMonths;
      if !Taken(tm, k) {
        RefusedInZone(start, k, zone);
        RelativeMonthIsExact(start, k);
        if InRange(tm, k) {
          InRangeIsTaken(tm, k);
        }
      } else if TargetExists(tm, k) {
        TakenInZone(start, k, zone);
        TargetKeepsHour(start, k);
        CorrectionCancelsZone(start, Seconds(Target(tm, k)), zone + ExpansionMinutes(tm, k));
      }
    }
  }

  // Zones of at most a day cannot make up for an expanded year, so for them only targets in range are moved to.
  predicate MovesInEarthlyZone(tm: Tm, k: int, zone: int)
    requires ValidTm(tm)
  {
    || k == 0
    || (InRange(tm, k) && ZoneHarmless(tm.hour, zone))
    || (TargetExists(tm, k) && !Taken(tm, k) && Seconds(Target(tm, k)) == -1)
  }

  lemma RelativeMonthInEarthlyZone(start: int, k: int, zone: int)
    requires -1440 <= zone <= 1440
    ensures MovedByMonths(start, k, start + RelativeMonth(start, k, zone))
       <==> MovesInEarthlyZone(Localtime(start), k, zone)
  {
    var tm := Localtime(start);
    hide Localtime, Seconds, Taken, ExpansionMinutes, MovedByMonths, RelativeMonth;
    RelativeMonthInZone(start, k, zone);
    if InRange(tm, k) {
      InRangeIsTaken(tm, k);
    } else if TargetExists(tm, k) && Taken(tm, k) {
      ExpansionIsFar(tm, k);
    }
  }

  lemma ExpansionIsFar(tm: Tm, k: int)
    requires ValidTm(tm) && TargetExists(tm, k) && Taken(tm, k) && !InRange(tm, k)
    ensures ExpansionMinutes(tm, k) > 1440 * 365
  {
    hide Quot, Rem, DaysToYear, DaysToMonth, ToSeconds;
    TakenMonth(tm, k);
    var n := TargetMonth(tm, k);
    var y, z := n / 12, ExpandedYear(tm, k);
    assert y + 1900 <= z;
    DayInYear(y, n % 12 + 1, tm.mday);
    DayInYear(z, n % 12 + 1, tm.mday);
    DaysToNextYear(y);
    YearsGrow(y + 1, z);
  }

  lemma CorrectionCancelsZone(start: int, target: int, zone: int)
    requires Localtime(target).hour == Localtime(start).hour
    ensures start + DstCorrect(start, target + zone * 60) == target <==> ZoneHarmless(Localtime(start).hour, zone)
  {
    hide Localtime, DstCorrect, Seconds;
    var h := Localtime(start).hour;
    var a, b := (h + 1) % 24, (Localtime(target + zone * 60).hour + 1) % 24;
    DstCorrectByHours(start, target + zone * 60);
    if zone % 60 == 0 {
      HourInZone(target, zone);
    }
    HoursMakeUp(a, b, zone);
  }

  // A zone of whole hours moves the hour by as many.
  lemma HourInZone(t: int, zone: int)
    requires zone % 60 == 0
    ensures (Localtime(t + zone * 60).hour + 1) % 24 == ((Localtime(t).hour + 1) % 24 + zone / 60) % 24
  {
    hide Localtime;
    var h, q := Localtime(t).hour, zone / 60;
    assert zone * 60 == q * 3600;
    HourAfter(t, q);
    HoursAdd(h, q, 1);
    HoursAdd(h + 1, 0, q);
  }

  lemma HoursMakeUp(a: int, b: int, zone: int)
    requires 0 <= a < 24 && 0 <= b < 24 && (zone % 60 == 0 ==> b == (a + zone / 60) % 24)
    ensures zone * 60 + (a - b) * 3600 == 0 <==> zone % 60 == 0 && 0 <= a + zone / 60 < 24
  {
    if zone % 60 == 0 {
      WrapsClock(a, zone / 60);
    }
  }

  lemma HourOf(t: int)
    ensures Localtime(t).hour == t / 3600 % 24
  {
    hide Seconds, ValidTm;
    HoursOfDay(t);
  }

  lemma HoursOfDay(t: int)
    ensures t % SECSPERDAY / 3600 == t / 3600 % 24
  {
    var n, s := t / SECSPERDAY, t % SECSPERDAY;
    assert t == (n * 24 + s / 3600) * 3600 + s % 3600;
    assert t / 3600 == n * 24 + s / 3600;
  }

  lemma HourAfter(t: int, q: int)
    ensures Localtime(t + q * 3600).hour == (Localtime(t).hour + q) % 24
  {
    hide Localtime;
    HourOf(t);
    HourOf(t + q * 3600);
    assert (t + q * 3600) / 3600 == t / 3600 + q;
    HoursAdd(t / 3600, q, 0);
  }

  lemma HoursAdd(a: int, b: int, c: int)
    ensures ((a + b) % 24 + c) % 24 == (a % 24 + b + c) % 24 == (a + b + c) % 24
  {
  }

  lemma WrapsClock(a: int, q: int)
    requires 0 <= a < 24
    ensures (a + q) % 24 - a == q <==> 0 <= a + q < 24
  {
  }

  // ----- Machines in other zones -----

  // RelativeMonth where localtime is ahead of UTC by so many minutes; what counts as local time is shifted by them.
  function RelativeMonthAt(start: int, k: int, zone: int, offset: int): int {
    if k == 0 then 0 else
    var tm := Localtime(start + offset * 60);
    var n := 12 * tm.year + tm.mon + k;
    var future :=
      Converted(Rem(n, 12) + 1, tm.mday, Quot(n, 12) + 1900, tm.hour, tm.min, tm.sec, Mer24, DstMaybe, zone);
    DstCorrect(start + offset * 60, future + offset * 60)
  }

  // The local second that the error value leads to: the second before 1970 on UTC, moved to the given hour
  function ErrorSecond(hour: int, offset: int): int {
    var e := offset * 60 - 1;
    e + ((hour + 1) % 24 - (Localtime(e).hour + 1) % 24) * 3600
  }

  lemma TakenOnMachine(start: int, k: int, zone: int, offset: int)
    requires k != 0 && Taken(Localtime(start + offset * 60), k)
    ensures RelativeMonthAt(start, k, zone, offset) == RelativeMonth(start + offset * 60, k, zone + offset)
  {
    hide Localtime, DstCorrect, ToSeconds, ValidDate, FullYear, Hour24, DayCount, Quot, Rem;
    RelativeMonthConverts(start + offset * 60, k, zone + offset);
  }

  lemma RefusedOnMachine(start: int, k: int, zone: int, offset: int)
    requires k != 0 && !Taken(Localtime(start + offset * 60), k)
    ensures var local := start + offset * 60;
            local + RelativeMonthAt(start, k, zone, offset) == ErrorSecond(Localtime(local).hour, offset)
  {
    hide Localtime, DstCorrect, Accepts, GregorianSeconds, Quot, Rem;
    DstCorrectByHours(start + offset * 60, offset * 60 - 1);
  }

  // As in any zone, with the difference of the two zones for the zone
  predicate MovesOnMachine(tm: Tm, k: int, zone: int, offset: int)
    requires ValidTm(tm)
  {
    || k == 0
    || (TargetExists(tm, k)
        && if Taken(tm, k) then ZoneHarmless(tm.hour, zone + offset + ExpansionMinutes(tm, k))
           else Seconds(Target(tm, k)) == ErrorSecond(tm.hour, offset))
  }

  lemma RelativeMonthOnMachine(start: int, k: int, zone: int, offset: int)
    ensures var local := start + offset * 60;
            MovedByMonths(local, k, local + RelativeMonthAt(start, k, zone, offset))
            == MovesOnMachine(Localtime(local), k, zone, offset)
  {
    hide Localtime, Seconds, Taken, ExpansionMinutes, ZoneHarmless, RelativeMonth, MovedByMonths, ErrorSecond;
    var local := start + offset * 60;
    RelativeMonthInZone(local, k, zone + offset);
    if k == 0 {
      RelativeMonthOfNone(local, zone + offset);
    } else if Taken(Localtime(local), k) {
      hide RelativeMonthAt;
      TakenOnMachine(start, k, zone, offset);
    } else {
      hide RelativeMonthAt;
      RefusedOnMachine(start, k, zone, offset);
      MovedIsTarget(local, k, local + RelativeMonthAt(start, k, zone, offset));
    }
  }

  // With the zone of the machine for the zone, whole hours or not, all targets in range are moved to.
  predicate MovesInOwnZone(tm: Tm, k: int, offset: int)
    requires ValidTm(tm)
  {
    || k == 0 || InRange(tm, k)
    || (TargetExists(tm, k) && !Taken(tm, k) && Seconds(Target(tm, k)) == ErrorSecond(tm.hour, offset))
  }

  lemma RelativeMonthInOwnZone(start: int, k: int, offset: int)
    ensures var local := start + offset * 60;
            MovedByMonths(local, k, local + RelativeMonthAt(start, k, -offset, offset))
            == MovesInOwnZone(Localtime(local), k, offset)
  {
    var local := start + offset * 60;
    var tm := Localtime(local);
    hide Localtime, Seconds, Taken, ExpansionMinutes, MovedByMonths, RelativeMonthAt, ErrorSecond;
    RelativeMonthOnMachine(start, k, -offset, offset);
    if InRange(tm, k) {
      InRangeIsTaken(tm, k);
    } else if TargetExists(tm, k) && Taken(tm, k) {
      ExpansionIsFar(tm, k);
    }
  }

  // The last day of January has no counterpart in February: the result is a moment of the first day of 1970.
  lemma EndOfJanuaryGoesWrong()
    ensures var start := Seconds(Tm(0, 0, 12, 31, 0, 99, 0, 0));
            start + RelativeMonth(start, 1, 0) == 46799 && !MovedByMonths(start, 1, 46799)
  {
    hide Localtime, Seconds, Converted, DstCorrect, RelativeMonth;
    var tm := Tm(0, 0, 12, 31, 0, 99, 0, 0);
    var start := Seconds(tm);
    LocaltimeOfSeconds(tm);
    RelativeMonthConverts(start, 1, 0);
    assert Quot(1189, 12) == 99 && Rem(1189, 12) == 1;
    RefusedIsMinusOne(2, 31, 1999, 12, 0, 0);
    LastSecondBeforeEpoch();
    DstCorrectByHours(start, -1);
    MovedIsTarget(start, 1, 46799);
  }
}
