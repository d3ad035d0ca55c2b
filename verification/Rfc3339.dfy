/**
 End to end: the tokens of a date-time as in section 5.6 of RFC 3339 (no fraction, no leap second, offset Z or
 a signed hhmm) are accepted, and PTimeParse returns the second of UTC they denote.
 */
module Rfc3339 {
  import opened Options
  import opened DateGrammar
  import opened DateActions
  import opened DateMachine
  import opened DatePhrases
  import opened DateMeaning
  import opened Calendar
  import opened DateArithmetic
  import opened TimeParse
  import opened TimeResults

  // An offset of Z is none.
  datatype DateTime =
    DateTime(year: int, month: int, day: int, hour: int, minute: int, second: int, offset: Option<Offset>)

  predicate IsDateTime(x: DateTime) {
    && EPOCH <= x.year <= LAST_YEAR && ValidDate(x.year, x.month, x.day)
    && 0 <= x.hour < 24 && 0 <= x.minute < 60 && 0 <= x.second < 60
    && (x.offset.Some? ==> 0 <= x.offset.value.hours < 24 && 0 <= x.offset.value.minutes < 60)
  }

  // Minutes ahead of UTC
  function OffsetMinutes(z: Option<Offset>): int {
    match z
    case None => 0
    case Some(o) => if o.west then -(o.hours * 60 + o.minutes) else o.hours * 60 + o.minutes
  }

  // The second of UTC that the date-time denotes
  function Utc(x: DateTime): int
    requires IsDateTime(x)
  {
    DayCount(x.year, x.month, x.day) * SECSPERDAY + TimeOfDay(x.hour, x.minute, x.second) - OffsetMinutes(x.offset) * 60
  }

  function OffsetLexeme(z: Option<Offset>): Lexeme {
    match z
    case None => Fixed(273, Number(0))
    case Some(o) => Fixed(267, Number(if o.west then -(o.hours * 100 + o.minutes) else o.hours * 100 + o.minutes))
  }

  // What the lexer makes of YYYY-MM-DDThh:mm:ss and the offset: the minus signs belong to the numbers.
  function Lexemes(x: DateTime): seq<Lexeme> {
    [Fixed(269, Number(x.year)), Fixed(266, Number(-x.month)), Fixed(266, Number(-x.day)), LetterT,
     Fixed(268, Number(x.hour)), Fixed(58, Number(0)), Fixed(268, Number(x.minute)), Fixed(58, Number(0)),
     Fixed(268, Number(x.second)), OffsetLexeme(x.offset)]
  }

  // The phrases of a date-time; a Z is one of its own.
  function DatePart(x: DateTime): Phrase {
    IsoDate(Digits(Four, x.year), x.month, x.day)
  }

  function TimePart(x: DateTime): Phrase {
    Clock(Digits(Plain, x.hour), Digits(Plain, x.minute), Some(Digits(Plain, x.second)),
          if x.offset.Some? then InZone(x.offset.value) else NoMark)
  }

  function Phrases(x: DateTime): seq<Phrase> {
    if x.offset.Some? then [DatePart(x), TimePart(x)] else [DatePart(x), TimePart(x), ZoneName(0)]
  }

  lemma LexemesArePhrases(x: DateTime)
    ensures AllWords(Phrases(x)) == Lexemes(x) && LexerOutput(Lexemes(x))
  {
    hide Words;
    var d, t := DatePart(x), TimePart(x);
    PhrasesInWords(x);
    TwoInWords(d, t);
    if x.offset.None? {
      OneMoreInWords([d, t], ZoneName(0));
      assert [d, t] + [ZoneName(0)] == [d, t, ZoneName(0)];
    }
  }

  lemma PhrasesInWords(x: DateTime)
    ensures Words(DatePart(x)) == Lexemes(x)[..4] && Words(ZoneName(0)) == [Fixed(273, Number(0))]
    ensures Words(TimePart(x)) == if x.offset.Some? then Lexemes(x)[4..] else Lexemes(x)[4..9]
  {
  }

  lemma OneMoreInWords(ps: seq<Phrase>, p: Phrase)
    ensures AllWords(ps + [p]) == AllWords(ps) + Words(p)
  {
    assert (ps + [p])[..|ps|] == ps;
  }

  lemma TwoInWords(p: Phrase, q: Phrase)
    ensures AllWords([p, q]) == Words(p) + Words(q)
  {
    hide Words;
    OneMoreInWords([], p);
    OneMoreInWords([p], q);
    assert [] + [p] == [p] && [p] + [q] == [p, q];
    assert AllWords([]) == [];
  }

  // The record a date-time leaves
  function RecordOf(x: DateTime, v: Vars): Vars {
    v.(year := x.year, month := x.month, day := x.day, haveDate := v.haveDate + 1,
       hour := x.hour, minutes := x.minute, seconds := x.second, meridian := Mer24, haveTime := v.haveTime + 1,
       timezone := -OffsetMinutes(x.offset), dstMode := DstOff,
       haveZone := if x.offset.None? then v.haveZone + 1 else v.haveZone)
  }

  lemma PhrasesAreSaid(x: DateTime, v: Vars, order: int)
    requires IsDateTime(x) && v.haveTime == 0
    ensures IsExpression(Phrases(x), v, order) && RecordedAll(Phrases(x), v, order) == RecordOf(x, v)
  {
    var d, t := DatePart(x), TimePart(x);
    var ps := Phrases(x);
    assert ps[..0] == [] && ps[..1] == [d] && ps[..2] == [d, t] && [d][..0] == [] && [d, t][..1] == [d];
    assert RecordedAll([], v, order) == v;
    assert RecordedAll([d], v, order) == Recorded(d, v, order);
    assert RecordedAll([d, t], v, order) == Recorded(t, Recorded(d, v, order), order);
  }

  lemma DateTimeIsAccepted(x: DateTime, order: int, v: Vars)
    requires IsDateTime(x) && v.haveTime == 0
    ensures LexerOutput(Lexemes(x))
    ensures var o := Parse(Lexemes(x), order, v); o.Accepted? && o.at.vars == RecordOf(x, v)
  {
    hide Parse, Lexemes, Phrases, IsExpression, RecordedAll;
    LexemesArePhrases(x);
    PhrasesAreSaid(x, v, order);
    ExpressionIsUnderstood(Phrases(x), v, order);
  }

  lemma RecordIsMoment(x: DateTime, v: Vars)
    requires IsDateTime(x) && Initial(v)
    ensures var w := RecordOf(x, v); NothingTwice(w) && w.haveDate == 1 && IsOnCalendar(w) && SecondOf(w) == Utc(x)
  {
    hide DayCount, ValidDate;
    FullYearMeaning(x.year);
    hide FullYear;
  }

  // PTimeParse returns the second of UTC, or -1 if it is negative, for every valid date-time.
  lemma DateTimeIsTimestamp(x: DateTime, order: int, now: Tm, timezone: int, clock: int)
    requires IsDateTime(x)
    ensures LexerOutput(Lexemes(x))
    ensures ParsedTime(Lexemes(x), now, timezone, order, clock) == if Utc(x) >= 0 then Utc(x) else -1
  {
    hide ParsedTime, Lexemes, RecordOf, Utc, IsExpression, RecordedAll, Phrases;
    var e, v := Setting(now, timezone, order, clock), Prepared(now, timezone);
    LexemesArePhrases(x);
    PhrasesAreSaid(x, v, order);
    RecordIsMoment(x, v);
    NothingRelative(x);
    DatedExpression(Phrases(x), e);
  }

  lemma NothingRelative(x: DateTime)
    ensures SecondsFrom(Phrases(x), 0) == MonthsFrom(Phrases(x), 0) == 0
  {
    var ps := Phrases(x);
    if |ps| == 3 {
      assert SecondsFrom(ps, 3) == MonthsFrom(ps, 3) == 0;
    }
    assert SecondsFrom(ps, 2) == MonthsFrom(ps, 2) == 0;
    assert SecondsFrom(ps, 1) == MonthsFrom(ps, 1) == 0;
  }
}
