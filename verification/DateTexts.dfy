/**
 All texts that check_time_format takes for a date: two- and four-digit years, with or without seconds, zones other
 than UTC. Which of them do_updatedb marks when they have passed.
 */
module DateTexts {
  import opened Options
  import opened Calendar
  import opened Expiry

  // ----- Which texts are dates -----

  // A date and time as written, and the minutes by which its zone is ahead of UTC
  datatype Reading = Reading(at: Moment, east: int)

  // The bounds of the library, which knows nothing of the lengths of months
  predicate FieldsFit(m: Moment) {
    1 <= m.month <= 12 && 1 <= m.day <= 31 && m.hour <= 23 && m.minute <= 59 && m.second <= 59
  }

  predicate StartsZone(s: string, o: nat) {
    o < |s| && (s[o] == 'Z' || s[o] == '+' || s[o] == '-')
  }

  // The zone from position o to the end; none at all is allowed too.
  function ZoneFrom(s: string, o: nat): Option<int>
    requires o <= |s|
  {
    if o == |s| || s[o..] == "Z" then Some(0)
    else if o + 5 == |s| && (s[o] == '+' || s[o] == '-') && Digits(s[o + 1..], 4) then
      var hours, minutes := Pair(s[o + 1..], 0), Pair(s[o + 1..], 2);
      if hours > 12 || minutes > 59 then None
      else Some(if s[o] == '-' then -(hours * 60 + minutes) else hours * 60 + minutes)
    else None
  }

  // Where the digits from position i on end
  function AfterDigits(s: string, i: nat): (n: nat)
    requires i <= |s|
    ensures i <= n <= |s|
    decreases |s| - i
  {
    if i < |s| && '0' <= s[i] <= '9' then AfterDigits(s, i + 1) else i
  }

  function Read(m: Moment, s: string, o: nat): Option<Reading>
    requires o <= |s|
  {
    if FieldsFit(m) && ZoneFrom(s, o).Some? then Some(Reading(m, ZoneFrom(s, o).value)) else None
  }

  // YYMMDDhhmm[ss], and a zone that may be missing only after seconds
  function UtcReading(s: string): Option<Reading> {
    if !Digits(s, 10) then None
    else if StartsZone(s, 10) then Read(MinuteMoment(s, 0), s, 10)
    else if !Digits(s, 12) then None
    else Read(UtcMoment(s), s, 12)
  }

  function LongMoment(s: string, second: int): Moment
    requires Digits(s, 12)
  {
    Moment(Pair(s, 0) * 100 + Pair(s, 2), Pair(s, 4), Pair(s, 6), Pair(s, 8), Pair(s, 10), second)
  }

  // YYYYMMDDhhmm[ss[.f]], likewise; the fraction is ignored.
  function GeneralizedReading(s: string): Option<Reading> {
    if !Digits(s, 12) then None
    else if StartsZone(s, 12) then Read(LongMoment(s, 0), s, 12)
    else if !Digits(s, 14) then None
    else
      var dot := |s| > 14 && s[14] == '.';
      var o := if dot then AfterDigits(s, 15) else 14;
      if dot && o == 15 then None else Read(LongMoment(s, Pair(s, 12)), s, o)
  }

  // ASN1_TIME_set_string tries the shorter form first.
  function DateReading(s: string): Option<Reading> {
    if UtcReading(s).Some? then UtcReading(s) else GeneralizedReading(s)
  }

  // ----- When a date has passed -----

  predicate IsReal(m: Moment) {
    ValidDate(m.year, m.month, m.day) && 0 <= m.hour < 24 && 0 <= m.minute < 60 && 0 <= m.second < 60
  }

  predicate IsClock(now: string) {
    IsUtcTime(now) && IsReal(UtcMoment(now))
  }

  // The second a moment on UTC denotes
  function Second(m: Moment): int
    requires 1 <= m.month
  {
    DayCount(m.year, m.month, m.day) * SECSPERDAY + TimeOfDay(m.hour, m.minute, m.second)
  }

  function MomentAt(t: int): (m: Moment)
    ensures IsReal(m) && Second(m) == t
  {
    var tm := Localtime(t);
    Moment(tm.year + 1900, tm.mon + 1, tm.mday, tm.hour, tm.min, tm.sec)
  }

  function Clock(now: string): int
    requires IsClock(now)
  {
    Second(UtcMoment(now))
  }

  // The second that a date means
  function Meant(r: Reading): int
    requires 1 <= r.at.month
  {
    Second(r.at) - 60 * r.east
  }

  // The verdict of X509_cmp_time: the clock is moved to the zone of the date, and the fields are compared.
  predicate Passed(r: Reading, now: string)
    requires IsClock(now)
  {
    NotLater(r.at, MomentAt(Clock(now) + 60 * r.east))
  }

  // Fields are ordered as their seconds are; second 60 of a minute is the start of the next one.
  lemma NotLaterIsOrder(a: Moment, b: Moment)
    requires IsReal(a.(second := 0)) && 0 <= a.second <= 60 && IsReal(b)
    ensures NotLater(a, b) <==> Second(a) <= Second(b)
  {
    hide DayCount;
    if EarlierDate(a.year, a.month, a.day, b.year, b.month, b.day) {
      DayCountIsMonotone(a.year, a.month, a.day, b.year, b.month, b.day);
    } else if EarlierDate(b.year, b.month, b.day, a.year, a.month, a.day) {
      DayCountIsMonotone(b.year, b.month, b.day, a.year, a.month, a.day);
    }
  }

  // For real dates that is whether the second meant has come.
  lemma PassedIsMeant(r: Reading, now: string)
    requires IsReal(r.at) && IsClock(now)
    ensures Passed(r, now) <==> Meant(r) <= Clock(now)
  {
    hide Second, NotLater, MomentAt;
    NotLaterIsOrder(r.at, MomentAt(Clock(now) + 60 * r.east));
  }

  // ----- What marking makes of them -----

  // Twelve digits are taken for a two-digit year and so on down to seconds. With ten, the minute counts from its start
  // if a sign follows, and from its end if a Z does.
  function TakenFor(s: string): Moment
    requires Digits(s, 10)
  {
    if Digits(s, 12) then UtcMoment(s) else MinuteMoment(s, if StartsZone(s, 10) && s[10] != 'Z' then 0 else 60)
  }

  // Twelve digits are followed by nothing, a sign, a point, another digit, or a Z that ends the text.
  lemma AfterTwelveDigits(date: string)
    requires DateReading(date).Some? && Digits(date, 12)
    ensures SortsUpToZ(date[12..])
  {
    hide Pair, FieldsFit, AfterDigits, MinuteMoment, LongMoment;
    if |date| > 12 {
      assert date[12..][0] == date[12];
    }
  }

  // Ten digits are followed by a sign or a Z.
  lemma AfterTenDigits(date: string)
    requires DateReading(date).Some? && !Digits(date, 12)
    ensures Digits(date, 10) && StartsZone(date, 10)
  {
    hide Read;
  }

  lemma MarksByTaken(date: string, now: string)
    requires DateReading(date).Some? && IsClock(now)
    ensures Digits(date, 10)
    ensures MarksExpired(date, now) <==> NotLater(TakenFor(date), UtcMoment(now))
  {
    hide MarksExpired, NotLater, DateReading, Pair, ValidDate;
    if Digits(date, 12) {
      AfterTwelveDigits(date);
      MarksByFirstTwelve(date, now);
    } else {
      AfterTenDigits(date);
      MarksByMinute(date, now, if date[10] != 'Z' then 0 else 60);
    }
  }

  // A row with this date is marked exactly if the date has passed.
  predicate MarkedOnTime(date: string, now: string)
    requires DateReading(date).Some? && IsClock(now)
  {
    MarksExpired(date, now) <==> Passed(DateReading(date).value, now)
  }

  // With a two-digit year, the second that the digits are taken for is the second meant except for the zone or, where
  // the seconds are missing before a Z, the minute.
  function Shift(date: string): int
    requires UtcReading(date).Some?
  {
    if date[10] == 'Z' then 60 else 60 * UtcReading(date).value.east
  }

  lemma TakenIsShifted(date: string)
    requires UtcReading(date).Some?
    ensures Digits(date, 10)
    ensures var r, taken := UtcReading(date).value, TakenFor(date);
            taken == r.at.(second := taken.second) && 0 <= taken.second <= 60
            && Second(taken) == Meant(r) + Shift(date)
  {
    hide Pair, DayCount, FullYear;
    if Digits(date, 12) {
      assert !StartsZone(date, 10);
      assert UtcReading(date) == Read(UtcMoment(date), date, 12);
    } else {
      assert UtcReading(date) == Read(MinuteMoment(date, 0), date, 10);
      assert date[10..][0] == date[10];
    }
  }

  predicate Between(a: int, t: int, b: int) {
    a <= t < b || b <= t < a
  }

  // Marking is right exactly if the clock is not between the second meant and the one the digits are taken for.
  lemma ShortDateIsMarkedOnTime(date: string, now: string)
    requires UtcReading(date).Some? && IsReal(UtcReading(date).value.at) && IsClock(now)
    ensures var meant := Meant(UtcReading(date).value);
            MarkedOnTime(date, now) <==> !Between(meant, Clock(now), meant + Shift(date))
  {
    hide UtcReading, TakenFor, UtcMoment, MarksExpired, Passed, Second, Shift, NotLater, ValidDate, Pair;
    TakenIsShifted(date);
    MarksByTaken(date, now);
    PassedIsMeant(UtcReading(date).value, now);
    NotLaterIsOrder(TakenFor(date), UtcMoment(now));
  }

  // Marking and meaning agree. Where the clock's year is not the one that the digits are taken for, that year alone
  // says on which side of the clock the date has to be.
  predicate SidesAgree(taken: Moment, meant: int, now: string)
    requires IsClock(now)
  {
    var clock := UtcMoment(now);
    if clock.year < taken.year then Clock(now) < meant
    else if clock.year > taken.year then meant <= Clock(now)
    else NotLater(taken, clock) <==> meant <= Clock(now)
  }

  lemma DateIsMarkedOnTime(date: string, now: string)
    requires DateReading(date).Some? && IsReal(DateReading(date).value.at) && IsClock(now)
    ensures MarkedOnTime(date, now) <==> SidesAgree(TakenFor(date), Meant(DateReading(date).value), now)
  {
    hide Meant, UtcMoment, DateReading, MarksExpired, Passed, Clock;
    MarksByTaken(date, now);
    PassedIsMeant(DateReading(date).value, now);
  }

  lemma LongDateHasTwelveDigits(date: string)
    requires GeneralizedReading(date).Some?
    ensures Digits(date, 12)
  {
  }

  // The condition for dates of this century with four-digit years, whatever follows their first twelve digits; yy is
  // the year in the century.
  predicate FitsYear2020(taken: Moment, yy: int, meant: int, now: string)
    requires IsClock(now)
  {
    var clock := UtcMoment(now);
    if clock.year <= 2019 || (clock.year == 2020 && yy > clock.month) then Clock(now) < meant
    else if clock.year >= 2021 then meant <= Clock(now)
    else yy < clock.month || NotLater(taken, clock)
  }

  lemma TakenFor2020(taken: Moment, meant: int, now: string)
    requires IsClock(now) && taken.year == 2020
    requires UtcMoment(now).year == 2020 && taken.month <= UtcMoment(now).month ==> meant <= Clock(now)
    ensures SidesAgree(taken, meant, now) <==> FitsYear2020(taken, taken.month, meant, now)
  {
    hide Clock, UtcMoment, IsReal;
  }

  lemma TakenForCentury(date: string)
    requires Digits(date, 12)
    ensures TakenFor(date) == UtcMoment(date) && UtcMoment(date).year == FullYear(Pair(date, 0))
    ensures UtcMoment(date).month == Pair(date, 2)
  {
  }

  lemma ZoneWithinDay(date: string)
    requires GeneralizedReading(date).Some?
    ensures -1440 < GeneralizedReading(date).value.east < 1440
  {
    hide Digits, FieldsFit, AfterDigits, LongMoment;
  }

  lemma EarlierYearHasPassed(r: Reading, now: string)
    requires IsReal(r.at) && IsClock(now) && -1440 < r.east < 1440 && r.at.year + 1 < UtcMoment(now).year
    ensures Meant(r) <= Clock(now)
  {
    hide UtcMoment;
    var clock := UtcMoment(now);
    DayInYear(r.at.year, r.at.month, r.at.day);
    DayInYear(clock.year, clock.month, clock.day);
    hide DaysToYear, DaysToMonth, MonthLength;
    DaysToNextYear(r.at.year);
    YearsGrow(r.at.year + 1, clock.year);
  }

  // In 2020 the clock shows a month up to 12, and dates of 2000 to 2012 have passed.
  lemma LongDateHasPassed(date: string, now: string)
    requires GeneralizedReading(date).Some? && IsReal(GeneralizedReading(date).value.at) && IsClock(now)
    requires Digits(date, 12) && Pair(date, 0) == 20 && UtcMoment(now).year == 2020 && Pair(date, 2) <= 12
    ensures Meant(GeneralizedReading(date).value) <= Clock(now)
  {
    ZoneWithinDay(date);
    assert GeneralizedReading(date).value.at.year == 2000 + Pair(date, 2);
    hide GeneralizedReading, Meant, Clock, IsReal, UtcMoment, Pair;
    EarlierYearHasPassed(GeneralizedReading(date).value, now);
  }

  lemma ClockMonth(now: string)
    requires IsClock(now)
    ensures UtcMoment(now).month <= 12
  {
  }

  lemma LongDateIsMarkedOnTime(date: string, now: string)
    requires UtcReading(date).None? && GeneralizedReading(date).Some? && IsReal(GeneralizedReading(date).value.at)
    requires Pair(date, 0) == 20 && IsClock(now)
    ensures MarkedOnTime(date, now)
       <==> FitsYear2020(UtcMoment(date), Pair(date, 2), Meant(GeneralizedReading(date).value), now)
  {
    LongDateHasTwelveDigits(date);
    hide Meant, UtcReading, GeneralizedReading, MarkedOnTime, IsReal, Pair, SidesAgree, FitsYear2020, UtcMoment, Digits;
    DateIsMarkedOnTime(date, now);
    TakenForCentury(date);
    ClockMonth(now);
    if UtcMoment(now).year == 2020 && Pair(date, 2) <= 12 {
      LongDateHasPassed(date, now);
    }
    TakenFor2020(UtcMoment(date), Meant(GeneralizedReading(date).value), now);
  }

  // ----- Dates that go wrong -----

  predicate Shows(date: string, r: Reading, taken: Moment) {
    DateReading(date) == Some(r) && Digits(date, 10) && TakenFor(date) == taken
  }

  predicate ShowsClock(now: string, clock: Moment) {
    IsClock(now) && UtcMoment(now) == clock
  }

  lemma CompareSeconds(date: string, now: string, r: Reading, taken: Moment, clock: Moment)
    requires Shows(date, r, taken) && ShowsClock(now, clock) && IsReal(r.at)
    ensures MarksExpired(date, now) <==> NotLater(taken, clock)
    ensures Passed(r, now) <==> Meant(r) <= Second(clock)
  {
    hide DateReading, TakenFor, MarksExpired, Passed, NotLater, Second, IsReal, UtcMoment, Digits;
    MarksByTaken(date, now);
    PassedIsMeant(r, now);
  }

  lemma NewYear2025(now: string, minute: int, second: int)
    requires || (now == "250101000000Z" && minute == second == 0)
             || (now == "250101003000Z" && minute == 30 && second == 0)
             || (now == "250101000030Z" && minute == 0 && second == 30)
    ensures ShowsClock(now, Moment(2025, 1, 1, 0, minute, second))
  {
  }

  // One hour behind UTC, marked half an hour early
  lemma WesternDateIsMarkedEarly()
    ensures var date, now := "250101000000-0100", "250101003000Z";
            && DateReading(date).Some? && IsClock(now)
            && MarksExpired(date, now) && !Passed(DateReading(date).value, now)
  {
    var date, now, at := "250101000000-0100", "250101003000Z", Moment(2025, 1, 1, 0, 0, 0);
    hide MarksExpired, Passed, DayCount;
    assert Shows(date, Reading(at, -60), at);
    hide DateReading, TakenFor, IsClock, UtcMoment;
    NewYear2025(now, 30, 0);
    CompareSeconds(date, now, Reading(at, -60), at, Moment(2025, 1, 1, 0, 30, 0));
  }

  // Without seconds, left alone half a minute after it has passed
  lemma DateWithoutSecondsIsLeftAlone()
    ensures var date, now := "2501010000Z", "250101000030Z";
            && DateReading(date).Some? && IsClock(now)
            && !MarksExpired(date, now) && Passed(DateReading(date).value, now)
  {
    var date, now, at := "2501010000Z", "250101000030Z", Moment(2025, 1, 1, 0, 0, 0);
    hide MarksExpired, Passed, DayCount;
    assert Shows(date, Reading(at, 0), at.(second := 60));
    hide DateReading, TakenFor, IsClock, UtcMoment;
    NewYear2025(now, 0, 30);
    CompareSeconds(date, now, Reading(at, 0), at.(second := 60), at.(second := 30));
  }

  // Thirteen characters, but with a four-digit year: valid until 2030 and marked in 2025
  lemma ThirteenCharactersAreNotEnough()
    ensures var date, now := "203001010000Z", "250101000000Z";
            && IsUtcTime(date) && DateReading(date).Some? && IsClock(now)
            && MarksExpired(date, now) && !Passed(DateReading(date).value, now)
  {
    var date, now, at := "203001010000Z", "250101000000Z", Moment(2030, 1, 1, 0, 0, 0);
    hide MarksExpired, Passed, DayCount;
    assert Shows(date, Reading(at, 0), Moment(2020, 30, 1, 1, 0, 0));
    hide DateReading, TakenFor, IsClock, UtcMoment;
    NewYear2025(now, 0, 0);
    CompareSeconds(date, now, Reading(at, 0), Moment(2020, 30, 1, 1, 0, 0), at.(year := 2025));
    DayCountIsMonotone(2025, 1, 1, 2030, 1, 1);
  }
}
