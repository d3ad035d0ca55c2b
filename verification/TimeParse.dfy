/**
 PTimeParse: parse a date expression, reject records that mention a part twice or nothing at all, and turn the
 rest into seconds.
 */
module TimeParse {
  import opened Options
  import opened DateGrammar
  import opened DateActions
  import opened DateMachine
  import opened DateTheorems
  import opened DateParser
  import opened Calendar
  import opened DateArithmetic

  // The record before parsing, from today's date and the zone in minutes east of Greenwich
  function Prepared(now: Tm, timezone: int): Vars {
    Vars(DstMaybe, None, None, 0, 0, 0, 0, 0, -timezone, now.mday, 0, 0, now.mon + 1, 0, now.year + 1900, Mer24, 0, 0)
  }

  predicate Repeated(v: Vars) {
    v.haveTime > 1 || v.haveZone > 1 || v.haveDate > 1 || v.haveDay > 1
  }

  predicate NothingSeen(v: Vars) {
    v.haveTime == 0 && v.haveZone == 0 && v.haveDate == 0 && v.haveDay == 0 && v.haveRel == 0
  }

  predicate HasMoment(v: Vars) {
    v.haveDate != 0 || v.haveTime != 0 || v.haveDay != 0
  }

  // The day of the week may be read: it is needed only if it has been written.
  predicate WeekdayReadable(v: Vars) {
    v.haveDay != 0 ==> v.dayOrdinal.Some? && v.dayNumber.Some?
  }

  // The moment relative parts count from; clock is the present second.
  function Base(v: Vars, now: Tm, clock: int): int {
    if HasMoment(v) then
      Converted(v.month, v.day, v.year, v.hour, v.minutes, v.seconds, v.meridian, v.dstMode, v.timezone)
    else if v.haveRel == 0 then clock - TimeOfDay(now.hour, now.min, now.sec)
    else clock
  }

  function WithRelatives(v: Vars, base: int): int
    requires WeekdayReadable(v)
  {
    var start := base + v.relSeconds;
    var moved := start + RelativeMonth(start, v.relMonth, v.timezone);
    if v.haveDay != 0 && v.haveDate == 0 then moved + RelativeDate(moved, v.dayOrdinal.value, v.dayNumber.value)
    else moved
  }

  // The result for a parsed record
  function TimeOf(v: Vars, now: Tm, clock: int): int
    requires WeekdayReadable(v)
  {
    if Repeated(v) || NothingSeen(v) then -1
    else if HasMoment(v) && Base(v, now, clock) < 0 then -1
    else
      var t := WithRelatives(v, Base(v, now, clock));
      if t == -1 then 0 else t
  }

  // No result: a part seen twice, no part at all, or a date that is refused or before 1970
  predicate Failed(v: Vars, now: Tm, clock: int) {
    Repeated(v) || NothingSeen(v) || (HasMoment(v) && Base(v, now, clock) < 0)
  }

  // The record left by a parse never has an unwritten day of the week read from it.
  lemma ParsedWeekdayIsReadable(input: seq<Lexeme>, order: int, now: Tm, timezone: int)
    requires LexerOutput(input)
    ensures WeekdayReadable(Parse(input, order, Prepared(now, timezone)).at.vars)
  {
    hide Run, Parse;
    BoundaryAfterParse(input, order, Prepared(now, timezone));
  }

  // What PTimeParse makes of an input
  ghost function ParsedTime(input: seq<Lexeme>, now: Tm, timezone: int, order: int, clock: int): int
    requires LexerOutput(input)
  {
    ParsedWeekdayIsReadable(input, order, now, timezone);
    TimeOf(Parse(input, order, Prepared(now, timezone)).at.vars, now, clock)
  }

  // A syntax error only ends the parse: what was recorded before it is used all the same. -1 always means failure,
  // because a legitimate -1 becomes 0.
  method PTimeParse(input: seq<Lexeme>, now: Tm, timezone: int, order: int, clock: int) returns (result: int)
    requires LexerOutput(input)
    ensures result == ParsedTime(input, now, timezone, order, clock)
    ensures result == -1 <==> Failed(Parse(input, order, Prepared(now, timezone)).at.vars, now, clock)
  {
    hide Run, Parse, Converted, RelativeMonth, RelativeDate;
    var vars := new Variables(now.year + 1900, now.mon + 1, now.mday, -timezone);
    var _ := YyParse(input, order, vars);
    ParsedWeekdayIsReadable(input, order, now, timezone);
    if vars.haveTime > 1 || vars.haveZone > 1 || vars.haveDate > 1 || vars.haveDay > 1 {
      return -1;
    }
    if vars.haveTime == 0 && vars.haveZone == 0 && vars.haveDate == 0 && vars.haveDay == 0 && vars.haveRel == 0 {
      return -1;
    }
    var start;
    if vars.haveDate != 0 || vars.haveTime != 0 || vars.haveDay != 0 {
      start := Convert(vars.month, vars.day, vars.year, vars.hour, vars.minutes, vars.seconds,
                       vars.meridian, vars.dstMode, vars.timezone);
      if start < 0 {
        return -1;
      }
    } else {
      start := clock;
      if vars.haveRel == 0 {
        start := start - (((now.hour * 60 + now.min) * 60) + now.sec);
      }
    }
    start := start + vars.relSeconds;
    start := start + RelativeMonth(start, vars.relMonth, vars.timezone);
    if vars.haveDay != 0 && vars.haveDate == 0 {
      start := start + RelativeDate(start, vars.dayOrdinal.value, vars.dayNumber.value);
    }
    result := if start == -1 then 0 else start;
  }
}
