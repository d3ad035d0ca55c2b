/**
 From words to seconds: what PTimeParse returns for date expressions, in terms of what they say and of the calendar.
 */
module TimeResults {
  import opened Options
  import opened DateGrammar
  import opened DateActions
  import opened DateMachine
  import opened DatePhrases
  import opened DateTheorems
  import opened DateMeaning
  import opened Calendar
  import opened DateArithmetic
  import opened RelativeMonths
  import opened TimeParse

  // The time now, the zone of the machine in minutes east of Greenwich, and the preferred order of dates
  datatype Setting = Setting(now: Tm, timezone: int, order: int, clock: int)

  predicate IsExpressionIn(ps: seq<Phrase>, e: Setting) {
    IsExpression(ps, Prepared(e.now, e.timezone), e.order)
  }

  // What PTimeParse returns for an expression
  ghost function ResultOf(ps: seq<Phrase>, e: Setting): int {
    AllWordsAreOutput(ps);
    ParsedTime(AllWords(ps), e.now, e.timezone, e.order, e.clock)
  }

  // What the phrases say
  function SaidBy(ps: seq<Phrase>, e: Setting): Vars
    requires ArePhrases(ps)
  {
    RecordedAll(ps, Prepared(e.now, e.timezone), e.order)
  }

  lemma ResultOfRecord(ps: seq<Phrase>, e: Setting)
    requires IsExpressionIn(ps, e)
    ensures ArePhrases(ps) && WeekdayReadable(SaidBy(ps, e))
    ensures ResultOf(ps, e) == TimeOf(SaidBy(ps, e), e.now, e.clock)
  {
    hide Parse, IsExpression, WeekdayReadable, TimeOf, LexerOutput, AllWords, RecordedAll;
    var v := Prepared(e.now, e.timezone);
    ExpressionIsUnderstood(ps, v, e.order);
    PhrasesOfExpression(ps, v, e.order);
    ParsedWeekdayIsReadable(AllWords(ps), e.order, e.now, e.timezone);
  }

  // -1 stands for a failure, so that second is given as 0.
  function Reported(t: int): int {
    if t == -1 then 0 else t
  }

  // The result is start moved by so many months, where moving is right, and not where it is not.
  ghost predicate IsStartMoved(result: int, start: int, months: int, zone: int) {
    && (months == 0 ==> result == Reported(start))
    && exists t :: result == Reported(t)
                   && (MovedByMonths(start, months, t) <==> MovesInZone(Localtime(start), months, zone))
  }

  lemma MonthsAreMoved(start: int, months: int, zone: int)
    ensures IsStartMoved(Reported(start + RelativeMonth(start, months, zone)), start, months, zone)
  {
    hide Localtime, MovedByMonths, MovesInZone;
    RelativeMonthInZone(start, months, zone);
    if months == 0 {
      RelativeMonthOfNone(start, zone);
    }
    hide RelativeMonth;
    var t := start + RelativeMonth(start, months, zone);
    assert MovedByMonths(start, months, t) <==> MovesInZone(Localtime(start), months, zone);
  }

  // ----- Nothing but relative parts -----

  predicate AllRelative(ps: seq<Phrase>) {
    forall i :: 0 <= i < |ps| ==> ps[i].Relative?
  }

  lemma RelativesAreExpression(ps: seq<Phrase>, v: Vars, order: int)
    requires AllRelative(ps)
    ensures IsExpression(ps, v, order)
  {
  }

  lemma {:induction false} RelativesSayNoMoment(ps: seq<Phrase>, v: Vars, order: int)
    requires AllRelative(ps)
    ensures ArePhrases(ps)
    ensures var w := RecordedAll(ps, v, order);
            w == v.(relSeconds := w.relSeconds, relMonth := w.relMonth, haveRel := v.haveRel + |ps|)
    decreases |ps|
  {
    if ps != [] {
      RelativesSayNoMoment(ps[..|ps| - 1], v, order);
      assert ps[|ps| - 1].Relative?;
    }
  }

  // Relative parts count from the present second.
  lemma RelativeFromNow(ps: seq<Phrase>, e: Setting)
    requires ps != [] && AllRelative(ps)
    ensures IsStartMoved(ResultOf(ps, e), e.clock + SecondsFrom(ps, 0), MonthsFrom(ps, 0), -e.timezone)
  {
    hide IsExpression, AllRelative, RecordedAll, TimeOf, IsStartMoved, ResultOf, RelativeMonth, SecondsFrom, MonthsFrom;
    var v := Prepared(e.now, e.timezone);
    RelativesAreExpression(ps, v, e.order);
    ResultOfRecord(ps, e);
    RelativesSayNoMoment(ps, v, e.order);
    RelativeParts(ps, v, e.order);
    ResultOfRelatives(SaidBy(ps, e), e.now, e.clock);
    MonthsAreMoved(e.clock + SecondsFrom(ps, 0), MonthsFrom(ps, 0), -e.timezone);
  }

  // The record when nothing but relative parts has been seen
  lemma ResultOfRelatives(v: Vars, now: Tm, clock: int)
    requires v.haveTime == v.haveDate == v.haveDay == v.haveZone == 0 && v.haveRel > 0
    ensures var start := clock + v.relSeconds;
            && WeekdayReadable(v)
            && TimeOf(v, now, clock) == Reported(start + RelativeMonth(start, v.relMonth, v.timezone))
  {
    hide RelativeDate, Converted, RelativeMonth;
  }

  // ----- A zone and nothing else -----

  lemma OneIsExpression(p: Phrase, e: Setting)
    requires IsPhrase(p)
    ensures IsExpressionIn([p], e) && SaidBy([p], e) == Recorded(p, Prepared(e.now, e.timezone), e.order)
  {
    hide Recorded, IsPhrase;
    var v := Prepared(e.now, e.timezone);
    assert RecordedAll([], v, e.order) == v;
    assert [p][..0] == [];
  }

  // The record when nothing but a zone has been seen
  lemma ResultOfZone(v: Vars, now: Tm, clock: int)
    requires v.haveTime == v.haveDate == v.haveDay == v.haveRel == 0 && v.haveZone == 1
    requires v.relSeconds == v.relMonth == 0
    ensures WeekdayReadable(v) && TimeOf(v, now, clock) == Reported(clock - TimeOfDay(now.hour, now.min, now.sec))
  {
    hide RelativeDate, Converted, Localtime, TimeOfDay;
  }

  // A zone alone means the start of the day.
  lemma ZoneMeansMidnight(zone: Phrase, e: Setting)
    requires zone.ZoneName? || zone.SummerZone? || zone.ZoneDst?
    ensures ResultOf([zone], e) == Reported(e.clock - TimeOfDay(e.now.hour, e.now.min, e.now.sec))
    ensures e.now == Localtime(e.clock) ==>
              var tm := Localtime(ResultOf([zone], e));
              && tm.hour == tm.min == tm.sec == 0
              && tm.year == e.now.year && tm.mon == e.now.mon && tm.mday == e.now.mday
  {
    hide TimeOf, Localtime, SaidBy, ResultOf, IsExpression, TimeOfDay;
    OneIsExpression(zone, e);
    ResultOfRecord([zone], e);
    ResultOfZone(SaidBy([zone], e), e.now, e.clock);
    if e.now == Localtime(e.clock) {
      Midnight(e.clock);
    }
  }

  lemma Midnight(t: int)
    ensures var u, m := Localtime(t), t - TimeOfDay(Localtime(t).hour, Localtime(t).min, Localtime(t).sec);
            && m != -1
            && var w := Localtime(m);
               w.hour == w.min == w.sec == 0 && w.year == u.year && w.mon == u.mon && w.mday == u.mday
  {
    var u := Localtime(t);
    var w := u.(hour := 0, min := 0, sec := 0);
    hide Localtime, DayCount;
    LocaltimeOfSeconds(w);
    assert Seconds(w) == t - TimeOfDay(u.hour, u.min, u.sec);
  }

  // ----- Dates and times -----

  predicate IsOnCalendar(v: Vars) {
    && 1970 <= FullYear(v.year) <= 2038 && ValidDate(FullYear(v.year), v.month, v.day)
    && 0 <= v.minutes < 60 && 0 <= v.seconds < 60
    && if v.meridian == Mer24 then 0 <= v.hour < 24 else 1 <= v.hour <= 12
  }

  // The second that the fields denote; an hour of am or pm is counted from midnight or noon, 12 for 0.
  function SecondOf(v: Vars): int
    requires IsOnCalendar(v)
  {
    var hour := match v.meridian case Mer24 => v.hour case Am => v.hour % 12 case Pm => v.hour % 12 + 12;
    DayCount(FullYear(v.year), v.month, v.day) * 86400 + hour * 3600 + v.minutes * 60 + v.seconds
    + v.timezone * 60 - if v.dstMode == DstOn then 3600 else 0
  }

  // The fields are those of a moment from 1970 on.
  predicate IsMoment(v: Vars) {
    IsOnCalendar(v) && SecondOf(v) >= 0
  }

  lemma MomentIsConverted(v: Vars)
    ensures var c := Converted(v.month, v.day, v.year, v.hour, v.minutes, v.seconds, v.meridian, v.dstMode, v.timezone);
            if IsMoment(v) then c == SecondOf(v) else c < 0
  {
    hide FullYear, ValidDate, DayCount, Localtime;
    ToSecondsMeaning(v.hour, v.minutes, v.seconds, v.meridian);
  }

  predicate NothingTwice(v: Vars) {
    v.haveTime <= 1 && v.haveZone <= 1 && v.haveDate <= 1 && v.haveDay <= 1
  }

  lemma ResultOfMoment(v: Vars, now: Tm, clock: int)
    requires WeekdayReadable(v) && NothingTwice(v) && HasMoment(v)
    ensures if IsMoment(v) then
              var start := SecondOf(v) + v.relSeconds;
              var moved := start + RelativeMonth(start, v.relMonth, v.timezone);
              TimeOf(v, now, clock) == Reported(
                if v.haveDay != 0 && v.haveDate == 0
                then moved + RelativeDate(moved, v.dayOrdinal.value, v.dayNumber.value) else moved)
            else TimeOf(v, now, clock) == -1
  {
    hide RelativeMonth, RelativeDate, Converted, IsOnCalendar, SecondOf;
    MomentIsConverted(v);
  }

  // Counters never fall below zero, and what is not said is as it was prepared.
  lemma SaidFromStart(ps: seq<Phrase>, e: Setting)
    requires IsExpressionIn(ps, e)
    ensures ArePhrases(ps)
    ensures var v := SaidBy(ps, e);
            && Boundary(Prepared(e.now, e.timezone), v)
            && v.relSeconds == SecondsFrom(ps, 0) && v.relMonth == MonthsFrom(ps, 0)
  {
    hide Parse, IsExpression, LexerOutput, RecordedAll, SecondsFrom, MonthsFrom, Boundary;
    var v := Prepared(e.now, e.timezone);
    ExpressionIsUnderstood(ps, v, e.order);
    PhrasesOfExpression(ps, v, e.order);
    BoundaryAfterParse(AllWords(ps), e.order, v);
    RelativeParts(ps, v, e.order);
    assert v.relSeconds == v.relMonth == 0;
  }

  // An expression with a date is its second of the calendar, then its relative seconds, then its months; there is no
  // result if the date or the time is not on the calendar or the clock.
  lemma DatedExpression(ps: seq<Phrase>, e: Setting)
    requires IsExpressionIn(ps, e)
    requires ArePhrases(ps) && NothingTwice(SaidBy(ps, e)) && SaidBy(ps, e).haveDate == 1
    ensures var v := SaidBy(ps, e);
            if IsMoment(v) then
              IsStartMoved(ResultOf(ps, e), SecondOf(v) + SecondsFrom(ps, 0), MonthsFrom(ps, 0), v.timezone)
            else ResultOf(ps, e) == -1
  {
    hide IsExpression, TimeOf, SaidBy, IsOnCalendar, SecondOf, RelativeMonth, RelativeDate, IsStartMoved, ResultOf;
    var v := SaidBy(ps, e);
    ResultOfRecord(ps, e);
    SaidFromStart(ps, e);
    ResultOfMoment(v, e.now, e.clock);
    if IsMoment(v) {
      MonthsAreMoved(SecondOf(v) + SecondsFrom(ps, 0), MonthsFrom(ps, 0), v.timezone);
    }
  }

  // t is on the weekday, at the same time of day as u, in the week that starts at u and is counted by nth.
  predicate IsNthDayFrom(t: int, u: int, nth: int, number: int) {
    var weeks := if nth <= 0 then nth else nth - 1;
    && Localtime(t).wday == number % 7
    && Localtime(t).hour == Localtime(u).hour && Localtime(t).min == Localtime(u).min
    && Localtime(t).sec == Localtime(u).sec
    && u + 7 * weeks * SECSPERDAY <= t < u + 7 * (weeks + 1) * SECSPERDAY
  }

  lemma WeekdayIsFound(u: int, nth: int, number: int)
    requires 0 <= number
    ensures IsNthDayFrom(u + RelativeDate(u, nth, number), u, nth, number)
  {
    hide Localtime, RelativeDate;
    RelativeDateFindsWeekday(u, nth, number);
  }

  // A weekday without a date is counted from today, after the relative parts.
  ghost predicate IsDayFrom(result: int, start: int, months: int, zone: int, nth: int, number: int) {
    exists u, t ::
      && (months == 0 ==> u == start)
      && (MovedByMonths(start, months, u) <==> MovesInZone(Localtime(start), months, zone))
      && IsNthDayFrom(t, u, nth, number) && result == Reported(t)
  }

  lemma WeekdayExpression(ps: seq<Phrase>, e: Setting)
    requires IsExpressionIn(ps, e)
    requires ArePhrases(ps) && NothingTwice(SaidBy(ps, e)) && SaidBy(ps, e).haveDate == 0 && SaidBy(ps, e).haveDay == 1
    requires SaidBy(ps, e).dayNumber.Some? ==> 0 <= SaidBy(ps, e).dayNumber.value
    ensures var v := SaidBy(ps, e);
            && v.year == e.now.year + 1900 && v.month == e.now.mon + 1 && v.day == e.now.mday
            && v.dayOrdinal.Some? && v.dayNumber.Some?
            && if IsMoment(v) then
                 IsDayFrom(ResultOf(ps, e), SecondOf(v) + SecondsFrom(ps, 0), MonthsFrom(ps, 0), v.timezone,
                           v.dayOrdinal.value, v.dayNumber.value)
               else ResultOf(ps, e) == -1
  {
    hide IsExpression, TimeOf, SaidBy, IsOnCalendar, SecondOf, RelativeMonth, RelativeDate, ResultOf, IsDayFrom;
    var v := SaidBy(ps, e);
    ResultOfRecord(ps, e);
    SaidFromStart(ps, e);
    ResultOfMoment(v, e.now, e.clock);
    if IsMoment(v) {
      var start := SecondOf(v) + v.relSeconds;
      DayIsFound(start, v.relMonth, v.timezone, v.dayOrdinal.value, v.dayNumber.value);
    }
  }

  lemma DayIsFound(start: int, months: int, zone: int, nth: int, number: int)
    requires 0 <= number
    ensures var u := start + RelativeMonth(start, months, zone);
            IsDayFrom(Reported(u + RelativeDate(u, nth, number)), start, months, zone, nth, number)
  {
    hide Localtime, RelativeDate, MovedByMonths, MovesInZone, IsNthDayFrom;
    RelativeMonthInZone(start, months, zone);
    if months == 0 {
      RelativeMonthOfNone(start, zone);
    }
    hide RelativeMonth;
    var u := start + RelativeMonth(start, months, zone);
    WeekdayIsFound(u, nth, number);
  }

  // A time, date, zone or weekday said twice is refused.
  lemma SaidTwiceIsRefused(ps: seq<Phrase>, e: Setting)
    requires IsExpressionIn(ps, e)
    requires ArePhrases(ps) && !NothingTwice(SaidBy(ps, e))
    ensures ResultOf(ps, e) == -1
  {
    hide IsExpression, SaidBy, ResultOf, RelativeMonth, RelativeDate, Converted;
    ResultOfRecord(ps, e);
  }

  // ----- Expressions of a few phrases, from words to seconds -----

  // A weekday alone is the first such day from the start of today on, in the machine's zone.
  lemma WeekdayAlone(number: int, comma: bool, e: Setting)
    requires 0 <= number && ValidTm(e.now) && 1970 <= e.now.year + 1900 <= 2038
    ensures var today := DayCount(e.now.year + 1900, e.now.mon + 1, e.now.mday) * 86400 - e.timezone * 60;
            var t := ResultOf([Weekday(number, comma)], e);
            if today < 0 then t == -1
            else Localtime(t).wday == number % 7 && today <= t < today + 7 * 86400
  {
    hide IsExpression, ResultOf, Localtime, DayCount, MovedByMonths, MovesInZone, RecordedAll;
    var p := Weekday(number, comma);
    OneIsExpression(p, e);
    WeekdayExpression([p], e);
    FullYearMeaning(e.now.year + 1900);
    NoRelativePart(p);
    var v := SaidBy([p], e);
    assert IsOnCalendar(v);
  }

  lemma NoRelativePart(p: Phrase)
    requires !p.Relative?
    ensures SecondsFrom([p], 0) == 0 && MonthsFrom([p], 0) == 0
  {
    assert SecondsFrom([p], 1) == 0 && MonthsFrom([p], 1) == 0;
  }

  // A date, a time of the afternoon or of the morning, and a number of minutes, hours, days or weeks, ago or from then
  lemma DateTimeAndSpan(month: int, day: Digits, year: Digits, hour: Digits, minute: Digits, half: MeridianMode,
                        count: Digits, unit: int, ago: bool, e: Setting)
    requires 1970 <= year.n <= 2038 && ValidDate(year.n, month, day.n) && half != Mer24
    requires 1 <= hour.n <= 12 && 0 <= minute.n < 60
    ensures var ps := [MonthDayYear(month, day, year), Clock(hour, minute, None, Half(half)),
                       Relative(Counted(count), MinuteUnit(unit), ago)];
            var hours := hour.n % 12 + if half == Pm then 12 else 0;
            var t := DayCount(year.n, month, day.n) * 86400 + hours * 3600 + minute.n * 60 - e.timezone * 60;
            var span := count.n * unit * 60;
            ResultOf(ps, e) == if t < 0 then -1 else Reported(if ago then t - span else t + span)
  {
    hide ResultOf, DayCount, ValidDate, IsStartMoved;
    var date, time := MonthDayYear(month, day, year), Clock(hour, minute, None, Half(half));
    var span := Relative(Counted(count), MinuteUnit(unit), ago);
    var ps := [date, time, span];
    ThreeAreExpression(date, time, span, e);
    var v := SaidBy(ps, e);
    hide RecordedAll, IsExpression;
    OneRelativePart(date, time, span);
    FullYearMeaning(year.n);
    hide FullYear;
    assert IsOnCalendar(v);
    DatedExpression(ps, e);
    if IsMoment(v) {
      NoMonths(ResultOf(ps, e), SecondOf(v) + SecondsFrom(ps, 0), v.timezone);
    }
  }

  lemma NoMonths(result: int, start: int, zone: int)
    requires IsStartMoved(result, start, 0, zone)
    ensures result == Reported(start)
  {
    hide MovedByMonths, MovesInZone, Localtime;
  }

  lemma ThreeAreExpression(p: Phrase, q: Phrase, r: Phrase, e: Setting)
    requires IsPhrase(p) && IsPhrase(q) && IsPhrase(r) && Undisturbed(p, q) && Undisturbed(q, r)
    requires !q.IsoDate? && !r.IsoDate?
    ensures var v := Prepared(e.now, e.timezone);
            && IsExpressionIn([p, q, r], e)
            && SaidBy([p, q, r], e) == Recorded(r, Recorded(q, Recorded(p, v, e.order), e.order), e.order)
  {
    hide Recorded, IsPhrase, Undisturbed;
    var v := Prepared(e.now, e.timezone);
    OneIsExpression(p, e);
    assert [p, q, r][..2] == [p, q] && [p, q][..1] == [p] && [p, q, r][..0] == [];
    assert RecordedAll([p, q], v, e.order) == Recorded(q, RecordedAll([p], v, e.order), e.order);
    assert RecordedAll([], v, e.order) == v;
  }

  lemma OneRelativePart(p: Phrase, q: Phrase, r: Phrase)
    requires !p.Relative? && !q.Relative? && r.Relative?
    ensures var ps, sign := [p, q, r], if r.ago then -1 else 1;
            SecondsFrom(ps, 0) == sign * SecondsIn(r) && MonthsFrom(ps, 0) == sign * MonthsIn(r)
  {
    hide SecondsMeant, MonthsMeant;
    var ps := [p, q, r];
    assert AgosFrom(ps, 3) == 0 && AgosFrom(ps, 2) == if r.ago then 1 else 0;
    assert SecondsFrom(ps, 3) == 0 && MonthsFrom(ps, 3) == 0;
    assert SecondsFrom(ps, 2) == Sign(ps, 2) * SecondsIn(r) && MonthsFrom(ps, 2) == Sign(ps, 2) * MonthsIn(r);
    assert SecondsFrom(ps, 1) == SecondsFrom(ps, 2) && MonthsFrom(ps, 1) == MonthsFrom(ps, 2);
  }
}
