/**
 Date expressions as they are written, phrase by phrase: the lexemes of each phrase, and what it says about the date,
 in terms of the hours, days and units written and without the grammar.
 */
module DatePhrases {
  import opened Options
  import opened DateTables
  import opened DateGrammar
  import opened DateActions

  // Digits without a sign; the lexer keeps groups of four and six apart from all others.
  datatype Kind = Plain | Four | Six

  datatype Digits = Digits(kind: Kind, n: int)

  // Four digits with a sign: hours and minutes west or east of Greenwich
  datatype Offset = Offset(west: bool, hours: int, minutes: int)

  datatype ClockEnd = NoMark | Half(half: MeridianMode) | InZone(zone: Offset)

  // Words for spans of time: of so many minutes, one second, or so many months
  datatype Unit = MinuteUnit(minutes: int) | SecondUnit | MonthUnit(months: int)

  datatype Count = Once | Signed(n: int) | Counted(d: Digits)

  datatype Phrase =
    | HourOf(h: int, half: MeridianMode)                                     // 3 pm
    | DigitTime(time: Digits, zone: Offset)                                  // 1530 +0100
    | Clock(hour: Digits, minute: Digits, second: Option<Digits>, end: ClockEnd)
    | ZoneName(minutesWest: int)                                             // EST
    | SummerZone(minutesWest: int)                                           // EDT
    | ZoneDst(minutesWest: int)                                              // EST DST
    | MilitaryZone(minutesWest: int)                                         // a single letter other than T
    | Weekday(number: int, comma: bool)
    | NthWeekday(nth: Digits, number: int)                                   // 2 Monday
    | SlashDate(a: Digits, b: Digits, c: Option<Digits>)
    | IsoDate(y: Digits, m: int, d: int)                                     // 2025-01-31T
    | EightDigits(date: int)
    | DashedDate(day: Digits, monthName: int, yy: int)                       // 17-JUN-92
    | MonthDay(monthName: int, day: Digits)
    | MonthDayYear(monthName: int, day: Digits, year: Digits)                // June 17, 1992
    | DayMonth(day: Digits, monthName: int)
    | DayMonthYear(day: Digits, monthName: int, year: Digits)                // 17 June 1992
    | Relative(count: Count, unit: Unit, ago: bool)
    | Lone(digits: Digits)

  // ----- How phrases are written -----

  function Named(sym: int, n: int): Lexeme {
    Fixed(sym + 255, Number(n))
  }

  const COLON_SIGN := Fixed(58, Number(0))
  const SLASH_SIGN := Fixed(47, Number(0))
  const COMMA_SIGN := Fixed(44, Number(0))

  function DigitsWord(d: Digits): Lexeme {
    Named(match d.kind case Plain => UNUMBER case Four => U4DIGIT case Six => U6DIGIT, d.n)
  }

  function HalfWord(half: MeridianMode): Lexeme {
    Fixed(MERIDIAN + 255, Meridian(half))
  }

  function OffsetWord(z: Offset): Lexeme {
    Named(S4DIGIT, if z.west then -(z.hours * 100 + z.minutes) else z.hours * 100 + z.minutes)
  }

  function EndWords(e: ClockEnd): seq<Lexeme> {
    match e
    case NoMark => []
    case Half(half) => [HalfWord(half)]
    case InZone(zone) => [OffsetWord(zone)]
  }

  function UnitWord(u: Unit): Lexeme {
    match u
    case MinuteUnit(k) => Named(MINUTE_UNIT, k)
    case SecondUnit => Named(SEC_UNIT, 1)
    case MonthUnit(k) => Named(MONTH_UNIT, k)
  }

  function CountWords(c: Count): seq<Lexeme> {
    match c
    case Once => []
    case Signed(n) => [Named(SNUMBER, n)]
    case Counted(d) => [DigitsWord(d)]
  }

  function Words(p: Phrase): seq<Lexeme> {
    match p
    case HourOf(h, half) => [Named(UNUMBER, h), HalfWord(half)]
    case DigitTime(time, zone) => [DigitsWord(time), OffsetWord(zone)]
    case Clock(h, m, None, e) => [DigitsWord(h), COLON_SIGN, DigitsWord(m)] + EndWords(e)
    case Clock(h, m, Some(s), e) =>
      [DigitsWord(h), COLON_SIGN, DigitsWord(m), COLON_SIGN, DigitsWord(s)] + EndWords(e)
    case ZoneName(west) => [Named(ZONE, west)]
    case SummerZone(west) => [Named(DAYZONE, west)]
    case ZoneDst(west) => [Named(ZONE, west), Named(DST, 0)]
    case MilitaryZone(west) => [Named(MILZONE, west)]
    case Weekday(n, comma) => if comma then [Named(DAY, n), COMMA_SIGN] else [Named(DAY, n)]
    case NthWeekday(nth, n) => [DigitsWord(nth), Named(DAY, n)]
    case SlashDate(a, b, None) => [DigitsWord(a), SLASH_SIGN, DigitsWord(b)]
    case SlashDate(a, b, Some(c)) => [DigitsWord(a), SLASH_SIGN, DigitsWord(b), SLASH_SIGN, DigitsWord(c)]
    case IsoDate(y, m, d) => [DigitsWord(y), Named(SNUMBER, -m), Named(SNUMBER, -d), LetterT]
    case EightDigits(n) => [Named(U8DIGIT, n)]
    case DashedDate(d, m, yy) => [DigitsWord(d), Named(MONTH, m), Named(SNUMBER, -yy)]
    case MonthDay(m, d) => [Named(MONTH, m), DigitsWord(d)]
    case MonthDayYear(m, d, y) => [Named(MONTH, m), DigitsWord(d), COMMA_SIGN, DigitsWord(y)]
    case DayMonth(d, m) => [DigitsWord(d), Named(MONTH, m)]
    case DayMonthYear(d, m, y) => [DigitsWord(d), Named(MONTH, m), DigitsWord(y)]
    case Relative(count, unit, ago) => CountWords(count) + [UnitWord(unit)] + if ago then [Named(AGO, 1)] else []
    case Lone(d) => [DigitsWord(d)]
  }

  function AllWords(ps: seq<Phrase>): seq<Lexeme> {
    if ps == [] then [] else AllWords(ps[..|ps| - 1]) + Words(ps[|ps| - 1])
  }

  lemma WordsAreOutput(p: Phrase)
    ensures LexerOutput(Words(p))
  {
  }

  lemma {:induction false} AllWordsAreOutput(ps: seq<Phrase>)
    ensures LexerOutput(AllWords(ps))
    decreases |ps|
  {
    hide Words;
    if ps != [] {
      AllWordsAreOutput(ps[..|ps| - 1]);
      WordsAreOutput(ps[|ps| - 1]);
    }
  }

  // Digit groups are not negative, and their pairs are pairs.
  predicate IsOffset(z: Offset) {
    0 <= z.hours && 0 <= z.minutes < 100
  }

  predicate IsPhrase(p: Phrase) {
    match p
    case DigitTime(time, zone) => time.kind != Plain && 0 <= time.n && IsOffset(zone)
    case Clock(_, _, _, InZone(zone)) => IsOffset(zone)
    case EightDigits(n) => 0 <= n
    case Lone(d) => 0 <= d.n
    case _ => true
  }

  // ----- What phrases mean -----

  datatype Ymd = Ymd(year: int, month: int, day: int)

  // Three numbers in a row: a part over 31 or over 12 gives the order away, otherwise it is the one preferred.
  function MeantDate(a: int, b: int, c: int, order: int): Ymd {
    if a > 31 then Ymd(a, b, c)
    else if a > 12 then Ymd(c, b, a)
    else if b > 12 then Ymd(c, a, b)
    else
      match order
      case 0 => Ymd(c, a, b)
      case 1 => Ymd(c, b, a)
      case _ => Ymd(a, b, c)
  }

  // The groups of a run of digits, two by two from the right
  datatype Groups = Groups(high: int, middle: int, low: int)

  function GroupsOf(n: int): (g: Groups)
    requires 0 <= n
    ensures n == g.high * 10000 + g.middle * 100 + g.low
    ensures 0 <= g.high && 0 <= g.middle < 100 && 0 <= g.low < 100
  {
    Groups(n / 10000, n / 100 % 100, n % 100)
  }

  // Hours and minutes of a run of digits
  function HoursOf(n: int): (h: (int, int))
    requires 0 <= n
    ensures n == h.0 * 100 + h.1 && 0 <= h.0 && 0 <= h.1 < 100
  {
    (n / 100, n % 100)
  }

  function West(z: Offset): int {
    if z.west then z.hours * 60 + z.minutes else -(z.hours * 60 + z.minutes)
  }

  function AtTime(v: Vars, h: int, m: int, s: int, half: MeridianMode): Vars {
    v.(hour := h, minutes := m, seconds := s, meridian := half, haveTime := v.haveTime + 1)
  }

  function OnDate(v: Vars, d: Ymd): Vars {
    v.(year := d.year, month := d.month, day := d.day, haveDate := v.haveDate + 1)
  }

  function InZoneWest(v: Vars, minutes: int, mode: DstMode): Vars {
    v.(timezone := minutes, dstMode := mode)
  }

  function OnWeekday(v: Vars, nth: int, number: int): Vars {
    v.(dayOrdinal := Some(nth), dayNumber := Some(number), haveDay := v.haveDay + 1)
  }

  function Times(c: Count): int {
    match c case Once => 1 case Signed(n) => n case Counted(d) => d.n
  }

  function SecondsMeant(c: Count, u: Unit): int {
    match u case MinuteUnit(k) => Times(c) * k * 60 case SecondUnit => Times(c) case MonthUnit(_) => 0
  }

  function MonthsMeant(c: Count, u: Unit): int {
    match u case MonthUnit(k) => Times(c) * k case _ => 0
  }

  // The word ago turns around all that has been said so far.
  function Moved(v: Vars, seconds: int, months: int, ago: bool): Vars {
    var s, m := v.relSeconds + seconds, v.relMonth + months;
    v.(relSeconds := if ago then -s else s, relMonth := if ago then -m else m, haveRel := v.haveRel + 1)
  }

  // A number by itself: a year after date and time, and otherwise a date or a time by its size.
  function Understood(v: Vars, d: Digits): Vars
    requires 0 <= d.n
  {
    var g, h := GroupsOf(d.n), HoursOf(d.n);
    if d.kind == Six then
      if v.haveDate == 0 && d.n > 240000 then OnDate(v, Ymd(g.high, g.middle, g.low))
      else if v.haveTime == 0 then AtTime(v, g.high, g.middle, g.low, Mer24)
      else v
    else if v.haveTime != 0 && v.haveDate != 0 && v.haveRel == 0 then v.(year := d.n)
    else if d.kind == Plain && d.n > 240000 then OnDate(v, Ymd(g.high, g.middle, g.low))
    else if d.kind == Four || d.n < 10000 then AtTime(v, h.0, h.1, 0, Mer24)
    else AtTime(v, g.high, g.middle, g.low, Mer24)
  }

  // The record after a phrase
  function Recorded(p: Phrase, v: Vars, order: int): Vars
    requires IsPhrase(p)
  {
    match p
    case HourOf(h, half) => AtTime(v, h, 0, 0, half)
    case DigitTime(d, zone) =>
      var g, h := GroupsOf(d.n), HoursOf(d.n);
      var w := if d.kind == Four then AtTime(v, h.0, h.1, 0, Mer24) else AtTime(v, g.high, g.middle, g.low, Mer24);
      InZoneWest(w, West(zone), DstOff)
    case Clock(h, m, s, NoMark) => AtTime(v, h.n, m.n, if s.Some? then s.value.n else 0, Mer24)
    case Clock(h, m, s, Half(half)) => AtTime(v, h.n, m.n, if s.Some? then s.value.n else 0, half)
    case Clock(h, m, s, InZone(zone)) =>
      InZoneWest(AtTime(v, h.n, m.n, if s.Some? then s.value.n else v.seconds, Mer24), West(zone), DstOff)
    case ZoneName(west) => InZoneWest(v, west, DstOff).(haveZone := v.haveZone + 1)
    case SummerZone(west) => InZoneWest(v, west, DstOn).(haveZone := v.haveZone + 1)
    case ZoneDst(west) => InZoneWest(v, west, DstOn).(haveZone := v.haveZone + 1)
    case MilitaryZone(west) => if v.haveTime > 0 then InZoneWest(v, west, DstOff).(haveZone := v.haveZone + 1) else v
    case Weekday(number, _) => OnWeekday(v, 1, number)
    case NthWeekday(nth, number) => OnWeekday(v, nth.n, number)
    case SlashDate(a, b, c) => OnDate(v, MeantDate(a.n, b.n, if c.Some? then c.value.n else v.year, order))
    case IsoDate(y, m, d) => OnDate(v, MeantDate(y.n, m, d, order))
    case EightDigits(n) => var g := GroupsOf(n); OnDate(v, Ymd(g.high, g.middle, g.low))
    case DashedDate(d, m, yy) => OnDate(v, MeantDate(d.n, m, yy, order))
    case MonthDay(m, d) =>
      OnDate(v, if d.n > 31 then Ymd(d.n, m, v.day) else Ymd(v.year, m, d.n))
    case MonthDayYear(m, d, y) => OnDate(v, Ymd(y.n, m, d.n))
    case DayMonth(d, m) =>
      OnDate(v, if d.n > 31 then Ymd(d.n, m, v.day) else Ymd(v.year, m, d.n))
    case DayMonthYear(d, m, y) => OnDate(v, MeantDate(d.n, m, y.n, order))
    case Relative(count, unit, ago) => Moved(v, SecondsMeant(count, unit), MonthsMeant(count, unit), ago)
    case Lone(d) => Understood(v, d)
  }

  predicate ArePhrases(ps: seq<Phrase>) {
    forall i :: 0 <= i < |ps| ==> IsPhrase(ps[i])
  }

  function RecordedAll(ps: seq<Phrase>, v: Vars, order: int): Vars
    requires ArePhrases(ps)
  {
    if ps == [] then v else Recorded(ps[|ps| - 1], RecordedAll(ps[..|ps| - 1], v, order), order)
  }

  // ----- Which phrases stand next to each other -----

  predicate StartsWithDigits(p: Phrase) {
    || p.HourOf? || p.DigitTime? || p.Clock? || p.NthWeekday? || p.SlashDate? || p.IsoDate? || p.DashedDate?
    || p.DayMonth? || p.DayMonthYear? || p.Lone? || (p.Relative? && p.count.Counted?)
  }

  // A number by itself would count a unit, a weekday or a day of a month that comes next, or begin a dashed date; and a
  // day of a month would take a number that comes next for its year.
  predicate Undisturbed(p: Phrase, next: Phrase) {
    && (p.Lone? ==> !next.Weekday? && !next.MonthDay? && !next.MonthDayYear?
                    && (next.Relative? ==> next.count.Counted?))
    && (p.DayMonth? ==> !StartsWithDigits(next) && (next.Relative? ==> next.count.Once?))
  }

  // A T is a separator until a time has been seen.
  predicate IsExpression(ps: seq<Phrase>, v: Vars, order: int) {
    && ArePhrases(ps)
    && (forall i :: 0 < i < |ps| ==> Undisturbed(ps[i - 1], ps[i]))
    && forall i :: 0 <= i < |ps| && ps[i].IsoDate? ==> RecordedAll(ps[..i], v, order).haveTime == 0
  }

  // ----- Relative parts -----

  function SecondsIn(p: Phrase): int {
    if p.Relative? then SecondsMeant(p.count, p.unit) else 0
  }

  function MonthsIn(p: Phrase): int {
    if p.Relative? then MonthsMeant(p.count, p.unit) else 0
  }

  // The number of times the word ago is said from phrase i on
  function AgosFrom(ps: seq<Phrase>, i: nat): nat
    requires i <= |ps|
    decreases |ps| - i
  {
    if i == |ps| then 0 else AgosFrom(ps, i + 1) + if ps[i].Relative? && ps[i].ago then 1 else 0
  }

  // A phrase counts backwards if that number is odd.
  function Sign(ps: seq<Phrase>, i: nat): int
    requires i <= |ps|
  {
    if AgosFrom(ps, i) % 2 == 0 then 1 else -1
  }

  function SecondsFrom(ps: seq<Phrase>, i: nat): int
    requires i <= |ps|
    decreases |ps| - i
  {
    if i == |ps| then 0 else Sign(ps, i) * SecondsIn(ps[i]) + SecondsFrom(ps, i + 1)
  }

  function MonthsFrom(ps: seq<Phrase>, i: nat): int
    requires i <= |ps|
    decreases |ps| - i
  {
    if i == |ps| then 0 else Sign(ps, i) * MonthsIn(ps[i]) + MonthsFrom(ps, i + 1)
  }

  lemma {:induction false} OneMorePhrase(ps: seq<Phrase>, i: nat)
    requires i < |ps|
    ensures var n := |ps| - 1;
            var back := ps[n].Relative? && ps[n].ago;
            var s, m := SecondsFrom(ps[..n], i) + SecondsIn(ps[n]), MonthsFrom(ps[..n], i) + MonthsIn(ps[n]);
            && AgosFrom(ps, i) == AgosFrom(ps[..n], i) + (if back then 1 else 0)
            && Sign(ps, i) == (if back then -Sign(ps[..n], i) else Sign(ps[..n], i))
            && SecondsFrom(ps, i) == (if back then -s else s) && MonthsFrom(ps, i) == (if back then -m else m)
    decreases |ps| - i
  {
    hide SecondsIn, MonthsIn;
    var n := |ps| - 1;
    if i < n {
      OneMorePhrase(ps, i + 1);
    }
  }

  // What relative parts add up to: each is added, or taken away if an odd number of agos is said from it on.
  lemma {:induction false} RelativeParts(ps: seq<Phrase>, v: Vars, order: int)
    requires ArePhrases(ps)
    ensures var w := RecordedAll(ps, v, order);
            && w.relSeconds == Sign(ps, 0) * v.relSeconds + SecondsFrom(ps, 0)
            && w.relMonth == Sign(ps, 0) * v.relMonth + MonthsFrom(ps, 0)
    decreases |ps|
  {
    hide Recorded;
    if ps != [] {
      var n := |ps| - 1;
      RelativeParts(ps[..n], v, order);
      OneMorePhrase(ps, 0);
      RelativeOf(ps[n], RecordedAll(ps[..n], v, order), order);
    }
  }

  lemma RelativeOf(p: Phrase, v: Vars, order: int)
    requires IsPhrase(p)
    ensures var w := Recorded(p, v, order);
            var s, m := v.relSeconds + SecondsIn(p), v.relMonth + MonthsIn(p);
            var back := p.Relative? && p.ago;
            w.relSeconds == (if back then -s else s) && w.relMonth == (if back then -m else m)
  {
    hide GroupsOf, HoursOf, MeantDate, West, SecondsMeant, MonthsMeant;
  }

  // ----- Dates -----

  // A date written in one of the orders month first, day first and year first
  function Written(d: Ymd, order: int): (int, int, int) {
    match order
    case 0 => (d.month, d.day, d.year)
    case 1 => (d.day, d.month, d.year)
    case _ => (d.year, d.month, d.day)
  }

  predicate IsYmd(d: Ymd) {
    1 <= d.month <= 12 && 1 <= d.day <= 31
  }

  // In the order preferred, it is read back; but years from 13 to 31 that come first are taken for the day.
  lemma WrittenDateIsRead(d: Ymd, order: int)
    requires IsYmd(d)
    ensures var w := Written(d, order);
            (MeantDate(w.0, w.1, w.2, order) == d
             <==> order == 0 || order == 1 || !(13 <= d.year <= 31) || d.year == d.day)
  {
  }

  // A month that is named does not help: the day is swapped with it or with the year unless it gives the order away.
  lemma NamedMonthIsRead(d: Ymd, order: int)
    requires IsYmd(d)
    ensures MeantDate(d.day, d.month, d.year, order) == d
       <==> d.day > 12 || order == 1 || (if order == 0 then d.day == d.month else d.day == d.year)
  {
  }

  // ----- Numbers by themselves -----

  predicate ReadsAs(v: Vars, kind: Kind, n: int, w: Vars)
    requires 0 <= n
  {
    Understood(v, Digits(kind, n)) == w
  }

  // Before a date or a time has been seen, digits written from a date or a time are read back as it.
  lemma LoneDigitsAreRead(v: Vars, kind: Kind, high: int, middle: int, low: int)
    requires 0 <= high && 0 <= middle < 100 && 0 <= low < 100
    requires v.haveDate == v.haveTime == 0
    ensures var n := high * 10000 + middle * 100 + low;
            && (kind != Four && n > 240000 ==> ReadsAs(v, kind, n, OnDate(v, Ymd(high, middle, low))))
            && (kind == Six && n <= 240000 ==> ReadsAs(v, kind, n, AtTime(v, high, middle, low, Mer24)))
            && (kind == Plain && 10000 <= n <= 240000 ==> ReadsAs(v, kind, n, AtTime(v, high, middle, low, Mer24)))
            && (high == 0 && kind != Six ==> ReadsAs(v, kind, n, AtTime(v, middle, low, 0, Mer24)))
  {
    GroupsAreUnique(high, middle, low);
  }

  lemma GroupsAreUnique(high: int, middle: int, low: int)
    requires 0 <= high && 0 <= middle < 100 && 0 <= low < 100
    ensures var n := high * 10000 + middle * 100 + low;
            GroupsOf(n) == Groups(high, middle, low) && HoursOf(n) == (high * 100 + middle, low)
  {
    var n := high * 10000 + middle * 100 + low;
    assert n / 100 == high * 100 + middle;
  }

  // After a date and a time, with nothing relative, a number is a year.
  lemma LoneYearIsRead(v: Vars, d: Digits)
    requires 0 <= d.n && d.kind != Six && v.haveDate != 0 && v.haveTime != 0 && v.haveRel == 0
    ensures Understood(v, d) == v.(year := d.n)
  {
  }
}
