/**
 The parser understands what is written: every expression whose phrases do not disturb each other is accepted, is read
 as one item for each phrase, and leaves the record that the phrases mean.
 */
module DateMeaning {
  import opened Options
  import opened DateTables
  import opened DateGrammar
  import opened DateAutomaton
  import opened DateActions
  import opened DateMachine
  import opened DateReader
  import opened DatePhrases

  // ----- Phrases as items -----

  function NumberSlot(d: Digits): Slot {
    Numeral(DigitsWord(d))
  }

  function EndSlot(e: ClockEnd): Slot {
    match e
    case NoMark => Mark(None)
    case Half(half) => Mark(Some(HalfWord(half)))
    case InZone(zone) => Word(OffsetWord(zone))
  }

  function RelativeRule(c: Count, u: Unit): int {
    match u
    case MinuteUnit(_) => (match c case Once => 37 case Signed(_) => 36 case Counted(_) => 35)
    case SecondUnit => (match c case Once => 40 case Signed(_) => 38 case Counted(_) => 39)
    case MonthUnit(_) => (match c case Once => 43 case Signed(_) => 41 case Counted(_) => 42)
  }

  function CountSlots(c: Count): seq<Slot> {
    match c
    case Once => []
    case Signed(n) => [Word(Named(SNUMBER, n))]
    case Counted(d) => [NumberSlot(d)]
  }

  function RuleOf(p: Phrase): int {
    match p
    case HourOf(_, _) => 10
    case DigitTime(d, _) => if d.kind == Four then 11 else 12
    case Clock(_, _, None, e) => if e.InZone? then 14 else 13
    case Clock(_, _, Some(_), e) => if e.InZone? then 16 else 15
    case ZoneName(_) => 17
    case SummerZone(_) => 18
    case ZoneDst(_) => 19
    case MilitaryZone(_) => 20
    case Weekday(_, comma) => if comma then 22 else 21
    case NthWeekday(_, _) => 23
    case SlashDate(_, _, c) => if c.None? then 24 else 25
    case IsoDate(_, _, _) => 26
    case EightDigits(_) => 27
    case DashedDate(_, _, _) => 28
    case MonthDay(_, _) => 29
    case MonthDayYear(_, _, _) => 30
    case DayMonth(_, _) => 31
    case DayMonthYear(_, _, _) => 32
    case Relative(c, u, _) => RelativeRule(c, u)
    case Lone(d) => match d.kind case Plain => 47 case Four => 48 case Six => 49
  }

  function SlotsOf(p: Phrase): seq<Slot> {
    match p
    case HourOf(h, half) => [Word(Named(UNUMBER, h)), Word(HalfWord(half))]
    case DigitTime(d, zone) => [Word(DigitsWord(d)), Word(OffsetWord(zone))]
    case Clock(h, m, None, e) => [NumberSlot(h), Word(COLON_SIGN), NumberSlot(m), EndSlot(e)]
    case Clock(h, m, Some(s), e) =>
      [NumberSlot(h), Word(COLON_SIGN), NumberSlot(m), Word(COLON_SIGN), NumberSlot(s), EndSlot(e)]
    case ZoneName(west) => [Word(Named(ZONE, west))]
    case SummerZone(west) => [Word(Named(DAYZONE, west))]
    case ZoneDst(west) => [Word(Named(ZONE, west)), Word(Named(DST, 0))]
    case MilitaryZone(west) => [Word(Named(MILZONE, west))]
    case Weekday(n, comma) => if comma then [Word(Named(DAY, n)), Word(COMMA_SIGN)] else [Word(Named(DAY, n))]
    case NthWeekday(nth, n) => [NumberSlot(nth), Word(Named(DAY, n))]
    case SlashDate(a, b, None) => [NumberSlot(a), Word(SLASH_SIGN), NumberSlot(b)]
    case SlashDate(a, b, Some(c)) => [NumberSlot(a), Word(SLASH_SIGN), NumberSlot(b), Word(SLASH_SIGN), NumberSlot(c)]
    case IsoDate(y, m, d) => [NumberSlot(y), Word(Named(SNUMBER, -m)), Word(Named(SNUMBER, -d)), Word(LetterT)]
    case EightDigits(n) => [Word(Named(U8DIGIT, n))]
    case DashedDate(d, m, yy) => [NumberSlot(d), Word(Named(MONTH, m)), Word(Named(SNUMBER, -yy))]
    case MonthDay(m, d) => [Word(Named(MONTH, m)), NumberSlot(d)]
    case MonthDayYear(m, d, y) => [Word(Named(MONTH, m)), NumberSlot(d), Word(COMMA_SIGN), NumberSlot(y)]
    case DayMonth(d, m) => [NumberSlot(d), Word(Named(MONTH, m))]
    case DayMonthYear(d, m, y) => [NumberSlot(d), Word(Named(MONTH, m)), NumberSlot(y)]
    case Relative(c, u, _) => CountSlots(c) + [Word(UnitWord(u))]
    case Lone(d) => [Word(DigitsWord(d))]
  }

  function ShapeOf(p: Phrase): Shape {
    Shape(RuleOf(p), SlotsOf(p), p.Relative? && p.ago)
  }

  // ----- The words of a phrase are those of its item -----

  lemma TokOfNamed(sym: int, n: int)
    requires 3 <= sym < 22
    ensures Tok(Named(sym, n)) == Token(sym, Number(n)) && Named(sym, n).code > 0
  {
  }

  lemma TokOfDigits(d: Digits)
    ensures SlotIsSound(NumberSlot(d)) && DigitsWord(d).Fixed? && DigitsWord(d).code > 0
    ensures Tok(DigitsWord(d)) == Token(match d.kind case Plain => UNUMBER case Four => U4DIGIT case Six => U6DIGIT,
                                        Number(d.n))
  {
  }

  lemma TokOfSigns()
    ensures Tok(COLON_SIGN) == Token(COLON, Number(0)) && Tok(SLASH_SIGN) == Token(SLASH, Number(0))
    ensures Tok(COMMA_SIGN) == Token(COMMA, Number(0)) && Tok(LetterT) == Token(RFC3339, Number(0))
  {
  }

  lemma TokOfMarks(half: MeridianMode)
    ensures Tok(HalfWord(half)) == Token(MERIDIAN, Meridian(half)) && SlotIsSound(Mark(Some(HalfWord(half))))
  {
  }

  predicate Fits(s: Slot, sym: int) {
    SlotIsSound(s) && SlotSym(s) == sym
  }

  lemma NamedFits(sym: int, n: int)
    requires 3 <= sym < 22
    ensures Fits(Word(Named(sym, n)), sym)
  {
    TokOfNamed(sym, n);
  }

  lemma DigitsFit(d: Digits)
    ensures Fits(NumberSlot(d), UNUMBER_NT)
    ensures Fits(Word(DigitsWord(d)), match d.kind case Plain => UNUMBER case Four => U4DIGIT case Six => U6DIGIT)
  {
    hide DigitsWord;
    TokOfDigits(d);
  }

  lemma SignsFit()
    ensures Fits(Word(COLON_SIGN), COLON) && Fits(Word(SLASH_SIGN), SLASH) && Fits(Word(COMMA_SIGN), COMMA)
    ensures Fits(Word(LetterT), RFC3339)
  {
    TokOfSigns();
  }

  lemma EndFits(e: ClockEnd)
    ensures Fits(EndSlot(e), if e.InZone? then S4DIGIT else O_MERID)
  {
    if e.InZone? {
      TokOfNamed(S4DIGIT, OffsetWord(e.zone).val.n);
    } else if e.Half? {
      TokOfMarks(e.half);
    }
  }

  lemma FillsByFits(slots: seq<Slot>, r: int)
    requires |slots| == |Rhs(r)| && forall i :: 0 <= i < |slots| ==> Fits(slots[i], Rhs(r)[i])
    ensures Fills(slots, r)
  {
    hide Rhs;
  }

  lemma TimeFills(p: Phrase)
    requires IsPhrase(p) && (p.HourOf? || p.DigitTime? || p.Clock?)
    ensures 10 <= RuleOf(p) <= 16 && |SlotsOf(p)| == |Rhs(RuleOf(p))|
    ensures forall i :: 0 <= i < |SlotsOf(p)| ==> Fits(SlotsOf(p)[i], Rhs(RuleOf(p))[i])
  {
    hide Rhs, Path, Fits, DigitsWord;
    RowsOfTimes();
    match p
    case HourOf(h, half) =>
      NamedFits(UNUMBER, h);
      HalfFits(half);
    case DigitTime(d, zone) =>
      DigitsFit(d);
      EndFits(InZone(zone));
    case Clock(h, m, s, e) =>
      DigitsFit(h);
      DigitsFit(m);
      SignsFit();
      EndFits(e);
      if s.Some? {
        DigitsFit(s.value);
      }
  }

  lemma HalfFits(half: MeridianMode)
    ensures Fits(Word(HalfWord(half)), MERIDIAN)
  {
    TokOfMarks(half);
  }

  lemma ZoneOrDayFills(p: Phrase)
    requires p.ZoneName? || p.SummerZone? || p.ZoneDst? || p.MilitaryZone? || p.Weekday? || p.NthWeekday?
    ensures 17 <= RuleOf(p) <= 23 && |SlotsOf(p)| == |Rhs(RuleOf(p))|
    ensures forall i :: 0 <= i < |SlotsOf(p)| ==> Fits(SlotsOf(p)[i], Rhs(RuleOf(p))[i])
  {
    hide Rhs, Path, Fits, DigitsWord, Named;
    RowsOfZones();
    RowsOfDays();
    SignsFit();
    match p
    case ZoneName(west) => NamedFits(ZONE, west);
    case SummerZone(west) => NamedFits(DAYZONE, west);
    case ZoneDst(west) =>
      NamedFits(ZONE, west);
      NamedFits(DST, 0);
    case MilitaryZone(west) => NamedFits(MILZONE, west);
    case Weekday(n, _) => NamedFits(DAY, n);
    case NthWeekday(nth, n) =>
      DigitsFit(nth);
      NamedFits(DAY, n);
  }

  lemma NumericDateFills(p: Phrase)
    requires p.SlashDate? || p.IsoDate? || p.EightDigits?
    ensures 24 <= RuleOf(p) <= 27 && |SlotsOf(p)| == |Rhs(RuleOf(p))|
    ensures forall i :: 0 <= i < |SlotsOf(p)| ==> Fits(SlotsOf(p)[i], Rhs(RuleOf(p))[i])
  {
    hide Rhs, Path, Fits, DigitsWord, Named;
    RowsOfDates();
    SignsFit();
    match p
    case SlashDate(a, b, c) =>
      DigitsFit(a);
      DigitsFit(b);
      if c.Some? {
        DigitsFit(c.value);
      }
    case IsoDate(y, m, d) =>
      DigitsFit(y);
      NamedFits(SNUMBER, -m);
      NamedFits(SNUMBER, -d);
    case EightDigits(n) => NamedFits(U8DIGIT, n);
  }

  lemma NamedDateFills(p: Phrase)
    requires p.DashedDate? || p.MonthDay? || p.MonthDayYear? || p.DayMonth? || p.DayMonthYear?
    ensures 28 <= RuleOf(p) <= 32 && |SlotsOf(p)| == |Rhs(RuleOf(p))|
    ensures forall i :: 0 <= i < |SlotsOf(p)| ==> Fits(SlotsOf(p)[i], Rhs(RuleOf(p))[i])
  {
    hide Rhs, Path, Fits, DigitsWord, Named;
    RowsOfDates();
    RowsOfNamedDates();
    SignsFit();
    NamedFits(MONTH, p.monthName);
    DigitsFit(p.day);
    match p
    case DashedDate(_, _, yy) => NamedFits(SNUMBER, -yy);
    case MonthDayYear(_, _, y) => DigitsFit(y);
    case DayMonthYear(_, _, y) => DigitsFit(y);
    case _ =>
  }

  lemma RelativeFills(p: Phrase)
    requires p.Relative?
    ensures 35 <= RuleOf(p) <= 43 && |SlotsOf(p)| == |Rhs(RuleOf(p))|
    ensures forall i :: 0 <= i < |SlotsOf(p)| ==> Fits(SlotsOf(p)[i], Rhs(RuleOf(p))[i])
  {
    hide Rhs, Path, Fits, DigitsWord, Named;
    RowsOfMinutes();
    RowsOfUnits();
    match p.unit {
      case MinuteUnit(k) => NamedFits(MINUTE_UNIT, k);
      case SecondUnit => NamedFits(SEC_UNIT, 1);
      case MonthUnit(k) => NamedFits(MONTH_UNIT, k);
    }
    match p.count
    case Once =>
    case Signed(n) => NamedFits(SNUMBER, n);
    case Counted(d) => DigitsFit(d);
  }

  lemma LoneFills(p: Phrase)
    requires p.Lone?
    ensures 47 <= RuleOf(p) <= 49 && |SlotsOf(p)| == |Rhs(RuleOf(p))|
    ensures forall i :: 0 <= i < |SlotsOf(p)| ==> Fits(SlotsOf(p)[i], Rhs(RuleOf(p))[i])
  {
    hide Rhs, Path, Fits, DigitsWord, Named;
    RowsOfNumbers();
    DigitsFit(p.digits);
  }

  lemma PhraseFills(p: Phrase)
    requires IsPhrase(p)
    ensures ShapeIsSound(ShapeOf(p))
  {
    hide Rhs, Fits, SlotsOf, RuleOf, Fills;
    match p {
      case HourOf(_, _) => TimeFills(p);
      case DigitTime(_, _) => TimeFills(p);
      case Clock(_, _, _, _) => TimeFills(p);
      case SlashDate(_, _, _) => NumericDateFills(p);
      case IsoDate(_, _, _) => NumericDateFills(p);
      case EightDigits(_) => NumericDateFills(p);
      case DashedDate(_, _, _) => NamedDateFills(p);
      case MonthDay(_, _) => NamedDateFills(p);
      case MonthDayYear(_, _, _) => NamedDateFills(p);
      case DayMonth(_, _) => NamedDateFills(p);
      case DayMonthYear(_, _, _) => NamedDateFills(p);
      case Relative(_, _, _) => RelativeFills(p);
      case Lone(_) => LoneFills(p);
      case _ => ZoneOrDayFills(p);
    }
    FillsByFits(SlotsOf(p), RuleOf(p));
  }

  // ----- The words of a phrase are the lexemes of its item -----

  lemma LexemesOfOne(a: Slot)
    ensures LexemesOf([a]) == SlotLexemes(a)
  {
    assert [a][..0] == [];
    assert LexemesOf([]) == [];
  }

  lemma LexemesOfMore(slots: seq<Slot>, a: Slot)
    ensures LexemesOf(slots + [a]) == LexemesOf(slots) + SlotLexemes(a)
  {
    assert (slots + [a])[..|slots|] == slots;
  }

  lemma LexemesOfTwo(a: Slot, b: Slot)
    ensures LexemesOf([a, b]) == SlotLexemes(a) + SlotLexemes(b)
  {
    hide SlotLexemes, LexemesOf;
    LexemesOfOne(a);
    LexemesOfMore([a], b);
    assert [a, b] == [a] + [b];
  }

  lemma LexemesOfThree(a: Slot, b: Slot, c: Slot)
    ensures LexemesOf([a, b, c]) == SlotLexemes(a) + SlotLexemes(b) + SlotLexemes(c)
  {
    hide SlotLexemes, LexemesOf;
    LexemesOfTwo(a, b);
    LexemesOfMore([a, b], c);
    assert [a, b, c] == [a, b] + [c];
  }

  lemma LexemesOfFour(a: Slot, b: Slot, c: Slot, d: Slot)
    ensures LexemesOf([a, b, c, d]) == SlotLexemes(a) + SlotLexemes(b) + SlotLexemes(c) + SlotLexemes(d)
  {
    hide SlotLexemes, LexemesOf;
    LexemesOfThree(a, b, c);
    LexemesOfMore([a, b, c], d);
    assert [a, b, c, d] == [a, b, c] + [d];
  }

  lemma LexemesOfSix(a: Slot, b: Slot, c: Slot, d: Slot, e: Slot, f: Slot)
    ensures LexemesOf([a, b, c, d, e, f])
         == SlotLexemes(a) + SlotLexemes(b) + SlotLexemes(c) + SlotLexemes(d) + SlotLexemes(e) + SlotLexemes(f)
    ensures LexemesOf([a, b, c, d, e])
         == SlotLexemes(a) + SlotLexemes(b) + SlotLexemes(c) + SlotLexemes(d) + SlotLexemes(e)
  {
    hide SlotLexemes, LexemesOf;
    LexemesOfFour(a, b, c, d);
    LexemesOfMore([a, b, c, d], e);
    LexemesOfMore([a, b, c, d, e], f);
    assert [a, b, c, d, e] == [a, b, c, d] + [e] && [a, b, c, d, e, f] == [a, b, c, d, e] + [f];
  }

  lemma CountWordsAreLexemes(c: Count)
    ensures LexemesOf(CountSlots(c)) == CountWords(c)
  {
    hide DigitsWord, Named;
    match c
    case Once =>
    case Signed(n) => LexemesOfOne(Word(Named(SNUMBER, n)));
    case Counted(d) => LexemesOfOne(NumberSlot(d));
  }

  lemma RelativeWords(p: Phrase)
    requires p.Relative?
    ensures ShapeLexemes(ShapeOf(p)) == Words(p)
  {
    hide LexemesOf, CountWords, CountSlots, RuleOf, UnitWord;
    CountWordsAreLexemes(p.count);
    LexemesOfMore(CountSlots(p.count), Word(UnitWord(p.unit)));
  }

  lemma ShortPhraseWords(p: Phrase)
    requires !p.Relative? && |SlotsOf(p)| <= 3
    ensures LexemesOf(SlotsOf(p)) == Words(p)
  {
    hide LexemesOf, DigitsWord, Named;
    var x := SlotsOf(p);
    if |x| == 1 {
      LexemesOfOne(x[0]);
      assert x == [x[0]];
    } else if |x| == 2 {
      LexemesOfTwo(x[0], x[1]);
      assert x == [x[0], x[1]];
    } else {
      LexemesOfThree(x[0], x[1], x[2]);
      assert x == [x[0], x[1], x[2]];
    }
  }

  lemma ClockWords(p: Phrase)
    requires p.Clock?
    ensures LexemesOf(SlotsOf(p)) == Words(p)
  {
    hide LexemesOf, DigitsWord, HalfWord, OffsetWord;
    var h, m, colon := NumberSlot(p.hour), NumberSlot(p.minute), Word(COLON_SIGN);
    if p.second.None? {
      LexemesOfFour(h, colon, m, EndSlot(p.end));
    } else {
      LexemesOfSix(h, colon, m, colon, NumberSlot(p.second.value), EndSlot(p.end));
    }
  }

  lemma LongDateWords(p: Phrase)
    requires p.IsoDate? || p.MonthDayYear? || (p.SlashDate? && p.c.Some?)
    ensures LexemesOf(SlotsOf(p)) == Words(p)
  {
    hide LexemesOf, DigitsWord, Named;
    var x := SlotsOf(p);
    if |x| == 4 {
      LexemesOfFour(x[0], x[1], x[2], x[3]);
      assert x == [x[0], x[1], x[2], x[3]];
    } else {
      LexemesOfSix(x[0], x[1], x[2], x[3], x[4], x[4]);
      assert x == [x[0], x[1], x[2], x[3], x[4]];
    }
  }

  lemma WordsAreLexemes(p: Phrase)
    ensures ShapeLexemes(ShapeOf(p)) == Words(p)
  {
    hide LexemesOf, Words, RuleOf;
    if p.Relative? {
      RelativeWords(p);
    } else if p.Clock? {
      ClockWords(p);
    } else if p.IsoDate? || p.MonthDayYear? || (p.SlashDate? && p.c.Some?) {
      LongDateWords(p);
    } else {
      ShortPhraseWords(p);
    }
  }

  // ----- The effect of the item is what the phrase means -----

  function SlotVal(s: Slot): Value {
    match s
    case Word(x) => Tok(x).val
    case Numeral(x) => Tok(x).val
    case Mark(x) => if x.Some? then Tok(x.value).val else Meridian(Mer24)
  }

  function SlotVals(slots: seq<Slot>): (x: seq<Value>)
    ensures |x| == |slots|
  {
    seq(|slots|, i requires 0 <= i < |slots| => SlotVal(slots[i]))
  }

  lemma ValsOfTrees(slots: seq<Slot>)
    ensures Vals(Trees(slots)) == SlotVals(slots)
  {
    forall i | 0 <= i < |slots| ensures Val(SlotTree(slots[i])) == SlotVal(slots[i]) {
    }
  }

  // Item rules count, and leave the rest to the part.
  function ItemCounted(k: int, v: Vars): Vars {
    match k
    case 4 => v.(haveTime := v.haveTime + 1)
    case 5 => v.(haveZone := v.haveZone + 1)
    case 6 => v.(haveDate := v.haveDate + 1)
    case 7 => v.(haveDay := v.haveDay + 1)
    case 8 => v.(haveRel := v.haveRel + 1)
    case _ => v
  }

  lemma ItemCounts(k: int, x: seq<Value>, v: Vars, order: int)
    requires 4 <= k <= 9 && |x| == |Rhs(k)|
    ensures Act(k, x, v, order) == ItemCounted(k, v)
  {
    hide Quot, Rem;
  }

  lemma PartHasEffect(p: Shape, v: Vars, order: int)
    requires ShapeIsSound(p)
    ensures 2 <= p.rule < 52 && |p.slots| == |Rhs(p.rule)|
    ensures var part := Node(p.rule, Trees(p.slots));
            WellFormed(part) && Effect(part, v, order) == Act(p.rule, SlotVals(p.slots), v, order)
  {
    hide Act, Rhs, Fills, SlotVals, Vals;
    var part := Node(p.rule, Trees(p.slots));
    SlotTreesAreSound(p.slots, p.rule);
    FillsMeans(p.slots, p.rule);
    NodeIsWellFormed(p.rule, Trees(p.slots));
    EffectOfSimple(part, v, order);
    ValsOfTrees(p.slots);
  }

  lemma FillsMeans(slots: seq<Slot>, r: int)
    requires Fills(slots, r)
    ensures |slots| == |Rhs(r)| && forall i :: 0 <= i < |slots| ==> SlotSym(slots[i]) == Rhs(r)[i]
  {
  }

  function TurnedAround(v: Vars, ago: bool): Vars {
    if ago then v.(relSeconds := -v.relSeconds, relMonth := -v.relMonth) else v
  }

  lemma RelativeHasEffect(part: Tree, ago: bool, v: Vars, order: int)
    ensures Effect(Node(33, [part, Leaf(Tok(AGO_WORD))]), v, order) == TurnedAround(Effect(part, v, order), true)
    ensures Effect(Node(34, [part]), v, order) == Effect(part, v, order)
  {
    hide Quot, Rem;
    assert Rhs(33) == [RELUNIT, AGO] && Rhs(34) == [RELUNIT];
    var word := Leaf(Tok(AGO_WORD));
    EffectOfPair(33, part, word, v, order);
    EffectAllOne(part, v, order);
  }

  lemma ItemHasEffect(p: Shape, v: Vars, order: int)
    requires ShapeIsSound(p)
    ensures 2 <= p.rule < 52 && |p.slots| == |Rhs(p.rule)|
    ensures Effect(ItemTree(p), v, order)
         == ItemCounted(ItemRule(p.rule), TurnedAround(Act(p.rule, SlotVals(p.slots), v, order), p.ago))
  {
    hide Act, Rhs, Fills, SlotVals, Effect;
    PartHasEffect(p, v, order);
    var part := Node(p.rule, Trees(p.slots));
    RelativeHasEffect(part, p.ago, v, order);
    PartOfRule(p.rule);
    ItemRules(ItemRule(p.rule));
    EffectOfItem(ItemTree(p), v, order);
    ItemCounts(ItemRule(p.rule), Vals(ItemTree(p).kids), Effect(PartTree(p), v, order), order);
  }

  lemma DigitsVal(d: Digits)
    ensures SlotVal(NumberSlot(d)) == SlotVal(Word(DigitsWord(d))) == Number(d.n)
  {
    hide DigitsWord;
    TokOfDigits(d);
  }

  lemma NamedVal(sym: int, n: int)
    requires 3 <= sym < 22
    ensures SlotVal(Word(Named(sym, n))) == Number(n)
  {
    TokOfNamed(sym, n);
  }

  lemma OffsetVal(z: Offset)
    requires IsOffset(z)
    ensures ZoneMinutes(Num(SlotVal(Word(OffsetWord(z))))) == West(z)
  {
    var n := z.hours * 100 + z.minutes;
    NamedVal(S4DIGIT, n);
    NamedVal(S4DIGIT, -n);
    assert n / 100 == z.hours && n % 100 == z.minutes;
    assert Quot(-n, 100) == -z.hours;
  }

  lemma QuotOfDigits(n: int, k: int)
    requires 0 <= n && k > 0
    ensures Quot(n, k) == n / k && Rem(n, k) == n % k
  {
  }

  lemma GroupsAreQuotients(n: int)
    requires 0 <= n
    ensures GroupsOf(n) == Groups(Quot(n, 10000), Rem(Quot(n, 100), 100), Rem(n, 100))
    ensures HoursOf(n) == (Quot(n, 100), Rem(n, 100))
  {
    hide Quot, Rem;
    QuotOfDigits(n, 100);
    QuotOfDigits(n, 10000);
    assert 0 <= n / 100;
    QuotOfDigits(n / 100, 100);
  }

  // The record that the item's rule, the turning around and the counting leave
  function ItemRecord(p: Phrase, v: Vars, order: int): Vars
    requires 2 <= RuleOf(p) < 52 && |SlotsOf(p)| == |Rhs(RuleOf(p))|
  {
    ItemCounted(ItemRule(RuleOf(p)), TurnedAround(Act(RuleOf(p), SlotVals(SlotsOf(p)), v, order), p.Relative? && p.ago))
  }

  lemma TimeMeans(p: Phrase, v: Vars, order: int)
    requires IsPhrase(p) && (p.HourOf? || p.DigitTime?) && |SlotsOf(p)| == |Rhs(RuleOf(p))|
    ensures ItemRecord(p, v, order) == Recorded(p, v, order)
  {
    hide Quot, Rem, Rhs, DigitsWord, OffsetWord, ZoneMinutes, West, GroupsOf, HoursOf;
    match p
    case HourOf(h, half) =>
      NamedVal(UNUMBER, h);
      TokOfMarks(half);
    case DigitTime(d, zone) =>
      DigitsVal(d);
      OffsetVal(zone);
      GroupsAreQuotients(d.n);
  }

  lemma ClockMeans(p: Phrase, v: Vars, order: int)
    requires IsPhrase(p) && p.Clock? && |SlotsOf(p)| == |Rhs(RuleOf(p))|
    ensures ItemRecord(p, v, order) == Recorded(p, v, order)
  {
    hide Quot, Rem, Rhs, DigitsWord, OffsetWord, ZoneMinutes, West;
    DigitsVal(p.hour);
    DigitsVal(p.minute);
    if p.second.Some? {
      DigitsVal(p.second.value);
    }
    match p.end
    case NoMark =>
    case Half(half) => TokOfMarks(half);
    case InZone(zone) => OffsetVal(zone);
  }

  lemma ZoneMeans(p: Phrase, v: Vars, order: int)
    requires p.ZoneName? || p.SummerZone? || p.ZoneDst? || p.MilitaryZone?
    requires |SlotsOf(p)| == |Rhs(RuleOf(p))|
    ensures ItemRecord(p, v, order) == Recorded(p, v, order)
  {
    hide Quot, Rem, Rhs, DigitsWord, Named;
    match p
    case ZoneName(west) => NamedVal(ZONE, west);
    case SummerZone(west) => NamedVal(DAYZONE, west);
    case ZoneDst(west) => NamedVal(ZONE, west);
    case MilitaryZone(west) => NamedVal(MILZONE, west);
  }

  lemma WeekdayMeans(p: Phrase, v: Vars, order: int)
    requires (p.Weekday? || p.NthWeekday?) && |SlotsOf(p)| == |Rhs(RuleOf(p))|
    ensures ItemRecord(p, v, order) == Recorded(p, v, order)
  {
    hide Quot, Rem, Rhs, DigitsWord, Named;
    NamedVal(DAY, p.number);
    if p.NthWeekday? {
      DigitsVal(p.nth);
    }
  }

  lemma SlashDateMeans(p: Phrase, v: Vars, order: int)
    requires p.SlashDate? && |SlotsOf(p)| == |Rhs(RuleOf(p))|
    ensures ItemRecord(p, v, order) == Recorded(p, v, order)
  {
    hide Quot, Rem, Rhs, DigitsWord;
    DigitsVal(p.a);
    DigitsVal(p.b);
    if p.c.Some? {
      DigitsVal(p.c.value);
    }
  }

  lemma NumericDateMeans(p: Phrase, v: Vars, order: int)
    requires IsPhrase(p) && (p.IsoDate? || p.EightDigits?) && |SlotsOf(p)| == |Rhs(RuleOf(p))|
    ensures ItemRecord(p, v, order) == Recorded(p, v, order)
  {
    hide Quot, Rem, Rhs, DigitsWord, Named, GroupsOf;
    match p
    case IsoDate(y, m, d) =>
      DigitsVal(y);
      NamedVal(SNUMBER, -m);
      NamedVal(SNUMBER, -d);
    case EightDigits(n) =>
      NamedVal(U8DIGIT, n);
      GroupsAreQuotients(n);
  }

  lemma DashedDateMeans(p: Phrase, v: Vars, order: int)
    requires p.DashedDate? && |SlotsOf(p)| == |Rhs(RuleOf(p))|
    ensures ItemRecord(p, v, order) == Recorded(p, v, order)
  {
    hide Quot, Rem, Rhs, DigitsWord, Named;
    NamedVal(MONTH, p.monthName);
    DigitsVal(p.day);
    NamedVal(SNUMBER, -p.yy);
  }

  lemma MonthAndDayMean(p: Phrase, v: Vars, order: int)
    requires (p.MonthDay? || p.DayMonth?) && |SlotsOf(p)| == |Rhs(RuleOf(p))|
    ensures ItemRecord(p, v, order) == Recorded(p, v, order)
  {
    hide Quot, Rem, Rhs, DigitsWord, Named;
    NamedVal(MONTH, p.monthName);
    DigitsVal(p.day);
  }

  lemma DayMonthAndYearMean(p: Phrase, v: Vars, order: int)
    requires (p.MonthDayYear? || p.DayMonthYear?) && |SlotsOf(p)| == |Rhs(RuleOf(p))|
    ensures ItemRecord(p, v, order) == Recorded(p, v, order)
  {
    hide Quot, Rem, Rhs, DigitsWord, Named;
    NamedVal(MONTH, p.monthName);
    DigitsVal(p.day);
    DigitsVal(p.year);
  }

  lemma CountVals(c: Count)
    ensures c.Signed? ==> SlotVal(Word(Named(SNUMBER, c.n))) == Number(c.n)
    ensures c.Counted? ==> SlotVal(NumberSlot(c.d)) == Number(c.d.n)
  {
    if c.Signed? {
      NamedVal(SNUMBER, c.n);
    } else if c.Counted? {
      DigitsVal(c.d);
    }
  }

  lemma MinutesMean(p: Phrase, v: Vars, order: int)
    requires p.Relative? && p.unit.MinuteUnit? && |SlotsOf(p)| == |Rhs(RuleOf(p))|
    ensures ItemRecord(p, v, order) == Recorded(p, v, order)
  {
    hide Quot, Rem, Rhs, DigitsWord, Named;
    NamedVal(MINUTE_UNIT, p.unit.minutes);
    CountVals(p.count);
  }

  lemma SecondsMean(p: Phrase, v: Vars, order: int)
    requires p.Relative? && p.unit.SecondUnit? && |SlotsOf(p)| == |Rhs(RuleOf(p))|
    ensures ItemRecord(p, v, order) == Recorded(p, v, order)
  {
    hide Quot, Rem, Rhs, DigitsWord, Named;
    NamedVal(SEC_UNIT, 1);
    CountVals(p.count);
  }

  lemma MonthsMean(p: Phrase, v: Vars, order: int)
    requires p.Relative? && p.unit.MonthUnit? && |SlotsOf(p)| == |Rhs(RuleOf(p))|
    ensures ItemRecord(p, v, order) == Recorded(p, v, order)
  {
    hide Quot, Rem, Rhs, DigitsWord, Named;
    NamedVal(MONTH_UNIT, p.unit.months);
    CountVals(p.count);
  }

  lemma LoneMeans(p: Phrase, v: Vars, order: int)
    requires IsPhrase(p) && p.Lone? && |SlotsOf(p)| == |Rhs(RuleOf(p))|
    ensures ItemRecord(p, v, order) == Recorded(p, v, order)
  {
    hide Quot, Rem, Rhs, DigitsWord, GroupsOf, HoursOf;
    DigitsVal(p.digits);
    GroupsAreQuotients(p.digits.n);
  }

  lemma PhraseHasEffect(p: Phrase, v: Vars, order: int)
    requires IsPhrase(p)
    ensures Effect(ItemTree(ShapeOf(p)), v, order) == Recorded(p, v, order)
  {
    hide Rhs, Fits, SlotsOf, RuleOf, Fills, Act, Recorded, Effect, SlotVals;
    PhraseFills(p);
    ItemHasEffect(ShapeOf(p), v, order);
    match p
    case HourOf(_, _) => TimeMeans(p, v, order);
    case DigitTime(_, _) => TimeMeans(p, v, order);
    case Clock(_, _, _, _) => ClockMeans(p, v, order);
    case SlashDate(_, _, _) => SlashDateMeans(p, v, order);
    case IsoDate(_, _, _) => NumericDateMeans(p, v, order);
    case EightDigits(_) => NumericDateMeans(p, v, order);
    case DashedDate(_, _, _) => DashedDateMeans(p, v, order);
    case MonthDay(_, _) => MonthAndDayMean(p, v, order);
    case MonthDayYear(_, _, _) => DayMonthAndYearMean(p, v, order);
    case DayMonth(_, _) => MonthAndDayMean(p, v, order);
    case DayMonthYear(_, _, _) => DayMonthAndYearMean(p, v, order);
    case Relative(_, MinuteUnit(_), _) => MinutesMean(p, v, order);
    case Relative(_, SecondUnit, _) => SecondsMean(p, v, order);
    case Relative(_, MonthUnit(_), _) => MonthsMean(p, v, order);
    case Lone(_) => LoneMeans(p, v, order);
    case Weekday(_, _) => WeekdayMeans(p, v, order);
    case NthWeekday(_, _) => WeekdayMeans(p, v, order);
    case _ => ZoneMeans(p, v, order);
  }

  // ----- Expressions -----

  // The token that a phrase begins with
  lemma FirstToken(q: Phrase)
    requires IsPhrase(q)
    ensures var t := FirstSym(ShapeOf(q));
            && BeginsItem(t)
            && (t == DAY ==> q.Weekday?) && (t == MONTH ==> q.MonthDay? || q.MonthDayYear?)
            && (UNUMBER <= t <= U6DIGIT ==> StartsWithDigits(q))
            && (t == SNUMBER ==> q.Relative? && q.count.Signed?)
            && (t == MINUTE_UNIT || t == MONTH_UNIT || t == SEC_UNIT ==> q.Relative? && q.count.Once?)
  {
    hide DigitsWord, Named, RuleOf, Tok, CountSlots;
    var first := SlotsOf(q)[0];
    match q
    case HourOf(h, _) => TokOfNamed(UNUMBER, h);
    case DigitTime(d, _) => TokOfDigits(d);
    case Clock(h, _, _, _) => TokOfDigits(h);
    case ZoneName(west) => TokOfNamed(ZONE, west);
    case SummerZone(west) => TokOfNamed(DAYZONE, west);
    case ZoneDst(west) => TokOfNamed(ZONE, west);
    case MilitaryZone(west) => TokOfNamed(MILZONE, west);
    case Weekday(n, _) => TokOfNamed(DAY, n);
    case NthWeekday(nth, _) => TokOfDigits(nth);
    case SlashDate(a, _, _) => TokOfDigits(a);
    case IsoDate(y, _, _) => TokOfDigits(y);
    case EightDigits(n) => TokOfNamed(U8DIGIT, n);
    case DashedDate(d, _, _) => TokOfDigits(d);
    case MonthDay(m, _) => TokOfNamed(MONTH, m);
    case MonthDayYear(m, _, _) => TokOfNamed(MONTH, m);
    case DayMonth(d, _) => TokOfDigits(d);
    case DayMonthYear(d, _, _) => TokOfDigits(d);
    case Relative(count, unit, _) => FirstOfRelative(count, unit);
    case Lone(d) => TokOfDigits(d);
  }

  lemma FirstOfRelative(c: Count, u: Unit)
    ensures var slots := CountSlots(c) + [Word(UnitWord(u))];
            && !slots[0].Mark?
            && var t := Tok(slots[0].x).sym;
               if c.Once? then t == MINUTE_UNIT || t == MONTH_UNIT || t == SEC_UNIT
               else if c.Signed? then t == SNUMBER
               else UNUMBER <= t <= U6DIGIT
  {
    hide DigitsWord, Named, Tok;
    match c {
      case Once =>
      case Signed(n) => TokOfNamed(SNUMBER, n);
      case Counted(d) => TokOfDigits(d);
    }
    match u
    case MinuteUnit(k) => TokOfNamed(MINUTE_UNIT, k);
    case SecondUnit => TokOfNamed(SEC_UNIT, 1);
    case MonthUnit(k) => TokOfNamed(MONTH_UNIT, k);
  }

  lemma MayStandBefore(p: Phrase, q: Phrase)
    requires IsPhrase(q) && Undisturbed(p, q)
    ensures MayFollow(RuleOf(p), FirstSym(ShapeOf(q)))
  {
    hide FirstSym, ShapeOf, IsPhrase;
    FirstToken(q);
  }

  function ShapesOf(ps: seq<Phrase>): (shapes: seq<Shape>)
    ensures |shapes| == |ps| && forall i :: 0 <= i < |ps| ==> shapes[i] == ShapeOf(ps[i])
  {
    seq(|ps|, i requires 0 <= i < |ps| => ShapeOf(ps[i]))
  }

  lemma {:induction false} ExpressionHasEffect(ps: seq<Phrase>, v: Vars, order: int)
    requires ArePhrases(ps)
    ensures EffectAll(ItemTrees(ShapesOf(ps)), v, order) == RecordedAll(ps, v, order)
    decreases |ps|
  {
    hide Effect, ItemTree, Recorded, IsPhrase, ShapeOf;
    if ps != [] {
      var n := |ps| - 1;
      ExpressionHasEffect(ps[..n], v, order);
      assert ShapesOf(ps)[..n] == ShapesOf(ps[..n]);
      PhraseHasEffect(ps[n], RecordedAll(ps[..n], v, order), order);
      EffectAllSnoc(ItemTrees(ShapesOf(ps[..n])), ItemTree(ShapeOf(ps[n])), v, order);
    }
  }

  lemma {:induction false} ExpressionIsWritten(ps: seq<Phrase>)
    ensures LexemesOfAll(ShapesOf(ps)) == AllWords(ps)
    decreases |ps|
  {
    hide ShapeOf, ShapeLexemes, Words;
    if ps != [] {
      var n := |ps| - 1;
      ExpressionIsWritten(ps[..n]);
      assert ShapesOf(ps)[..n] == ShapesOf(ps[..n]);
      WordsAreLexemes(ps[n]);
    }
  }

  lemma ExpressionIsReadable(ps: seq<Phrase>, v: Vars, order: int)
    requires IsExpression(ps, v, order)
    ensures Readable(ShapesOf(ps), v, order)
  {
    hide ShapeOf, ShapeIsSound, MayFollow, Undisturbed, IsPhrase, FirstSym, RuleOf, EffectAll, RecordedAll;
    var shapes := ShapesOf(ps);
    forall i | 0 <= i < |ps|
      ensures ShapeIsSound(shapes[i]) && MayFollow(shapes[i].rule, SymAfter(shapes, i))
      ensures shapes[i].rule == 26 ==> EffectAll(ItemTrees(shapes[..i]), v, order).haveTime == 0
    {
      PhraseFills(ps[i]);
      RuleOfShape(ps[i]);
      if i + 1 < |ps| {
        assert Undisturbed(ps[i + 1 - 1], ps[i + 1]);
        MayStandBefore(ps[i], ps[i + 1]);
      } else {
        EndMayFollow(RuleOf(ps[i]));
      }
      ExpressionHasEffect(ps[..i], v, order);
      assert shapes[..i] == ShapesOf(ps[..i]);
    }
  }

  lemma RuleOfShape(p: Phrase)
    ensures ShapeOf(p).rule == RuleOf(p) && (RuleOf(p) == 26 <==> p.IsoDate?)
  {
  }

  lemma EndMayFollow(r: int)
    ensures MayFollow(r, END)
  {
  }

  // The kind of item each phrase is read as
  function KindOf(p: Phrase): int {
    match p
    case HourOf(_, _) => TIME
    case DigitTime(_, _) => TIME
    case Clock(_, _, _, _) => TIME
    case ZoneName(_) => ZONE_ITEM
    case SummerZone(_) => ZONE_ITEM
    case ZoneDst(_) => ZONE_ITEM
    case MilitaryZone(_) => ZONE_ITEM
    case Weekday(_, _) => DAY_ITEM
    case NthWeekday(_, _) => DAY_ITEM
    case Relative(_, _, _) => REL
    case Lone(_) => NUMBER
    case _ => DATE
  }

  lemma ItemIsOfKind(p: Phrase)
    requires IsPhrase(p)
    ensures var item := ItemTree(ShapeOf(p));
            item.Node? && |item.kids| == 1 && Root(item.kids[0]) == KindOf(p)
  {
    hide SlotsOf, Trees;
  }

  /**
   An expression whose phrases do not disturb each other is accepted, is read as one item for each phrase and of its
   kind, and leaves the record that the phrases mean.
   */
  lemma ExpressionIsUnderstood(ps: seq<Phrase>, v: Vars, order: int)
    requires IsExpression(ps, v, order)
    ensures LexerOutput(AllWords(ps))
    ensures var o := Parse(AllWords(ps), order, v);
            && o.Accepted? && o.at.vars == RecordedAll(ps, v, order)
            && |o.at.trees| == 2 && o.at.trees[1] == Leaf(EOF)
            && var items := Items(o.at.trees[0]);
               |items| == |ps|
               && forall i :: 0 <= i < |ps| ==>
                    items[i].Node? && |items[i].kids| == 1 && Root(items[i].kids[0]) == KindOf(ps[i])
  {
    hide Parse, LexerOutput, Readable, EffectAll, RecordedAll, IsExpression, ItemTree, ShapeOf, KindOf, Root;
    AllWordsAreOutput(ps);
    ExpressionIsReadable(ps, v, order);
    ExpressionIsWritten(ps);
    PhrasesOfExpression(ps, v, order);
    ExpressionHasEffect(ps, v, order);
    ItemsAreAccepted(Source(AllWords(ps), order, v), ShapesOf(ps));
    forall i | 0 <= i < |ps| {
      ItemIsOfKind(ps[i]);
    }
  }

  lemma PhrasesOfExpression(ps: seq<Phrase>, v: Vars, order: int)
    requires IsExpression(ps, v, order)
    ensures ArePhrases(ps)
  {
  }

  // ----- Dates that are written as the grammar's comments say, and not understood -----

  // Between items a signed four-digit number is an error, and so is anything but a T after the parts of a date.
  lemma ErrorMoves()
    ensures Action(1, S4DIGIT) == Action(49, END) == SyntaxError
    ensures Yypact(1) != YYPACT_NINF && Yypact(49) != YYPACT_NINF
  {
    assert Yypact(1) == 49 && Yydefact(1) == 0 && Yypact(49) == 12 && Yydefact(49) == 0;
  }

  lemma ErrorIsFinal(src: Source, c: Config, states: seq<int>, trees: seq<Tree>, n: nat, t: int)
    requires Reached(src, c, states, trees, n) && Next(src.input, n, t)
    requires var s := states[|states| - 1];
             0 <= s < 63 && 0 <= t < YYNTOKENS && Yypact(s) != YYPACT_NINF && Action(s, t) == SyntaxError
    ensures Parse(src.input, src.order, src.vars).Rejected?
    ensures Parse(src.input, src.order, src.vars).at.vars == EffectAll(trees, src.vars, src.order)
  {
    hide Action, Yypact, EffectAll, YieldAll, Linked, Labelled, Parse, Act;
    NextIsFetched(src.input, src.order, src.vars, c, t);
    RunRejects(src.input, src.order, src.vars, c);
  }

  // In 17-JUN-1992 the year is a number of its own kind, for which no rule has room: the date is read without it.
  lemma DashedYearIsLost(d: Digits, month: int, yyyy: int, v: Vars, order: int)
    ensures var input := [DigitsWord(d), Named(MONTH, month), Named(S4DIGIT, -yyyy)];
            && LexerOutput(input)
            && Parse(input, order, v).Rejected?
            && Parse(input, order, v).at.vars == Recorded(DayMonth(d, month), v, order)
  {
    hide DigitsWord, Reached, Action, Yypact, Parse, Recorded;
    var input := [DigitsWord(d), Named(MONTH, month), Named(S4DIGIT, -yyyy)];
    var src, p := Source(input, order, v), ShapeOf(DayMonth(d, month));
    TokOfDigits(d);
    PhraseFills(DayMonth(d, month));
    WordsAreLexemes(DayMonth(d, month));
    assert input[2].code == S4DIGIT + 255;
    var c := StartBetweenItems(src);
    c := ReadPart(src, c, Node(2, []), 0, p, S4DIGIT);
    c := CloseItem(src, c, Node(2, []), PartTree(p), 2, 6);
    ErrorMoves();
    var spec := Node(3, [Node(2, []), ItemTree(p)]);
    ErrorIsFinal(src, c, [0, 1], [spec], 2, S4DIGIT);
    SpecGrows([], ItemTree(p));
    SpecOfFolds([ItemTree(p)], v, order);
    EffectAllOne(ItemTree(p), v, order);
    PhraseHasEffect(DayMonth(d, month), v, order);
  }

  // In 2025-01-31 without a time there is no T, and nothing is recorded.
  lemma IsoDateNeedsTime(y: Digits, m: int, d: int, v: Vars, order: int)
    ensures var input := [DigitsWord(y), Named(SNUMBER, -m), Named(SNUMBER, -d)];
            LexerOutput(input) && Parse(input, order, v).Rejected? && Parse(input, order, v).at.vars == v
  {
    hide DigitsWord, Reached, Action, Yypact, Parse, Goto;
    var input := [DigitsWord(y), Named(SNUMBER, -m), Named(SNUMBER, -d)];
    var src, spec, year := Source(input, order, v), Node(2, []), NumberSlot(y);
    var month, day := Leaf(LexToken(input[1], 0)), Leaf(LexToken(input[2], 0));
    TokOfDigits(y);
    ShiftsBetweenItems();
    ShiftsAfterNumber();
    ShiftsInside();
    NumberGotos();
    NumbersGoOn(Tok(DigitsWord(y)).sym, SNUMBER);
    var c := StartBetweenItems(src);
    c := ReadSlot(src, c, [0, 1], [spec], 0, year, 23, SNUMBER);
    assert [0, 1] + [23] == [0, 1, 23] && [spec] + [SlotTree(year)] == [spec, SlotTree(year)];
    c := ShiftStep(src, c, [0, 1, 23], [spec, SlotTree(year)], 1, SNUMBER, 42);
    assert [0, 1, 23] + [42] == [0, 1, 23, 42];
    assert [spec, SlotTree(year)] + [month] == [spec, SlotTree(year), month];
    c := ShiftStep(src, c, [0, 1, 23, 42], [spec, SlotTree(year), month], 2, SNUMBER, 49);
    assert [0, 1, 23, 42] + [49] == [0, 1, 23, 42, 49];
    var trees := [spec, SlotTree(year), month] + [day];
    ErrorMoves();
    ErrorIsFinal(src, c, [0, 1, 23, 42, 49], trees, 3, END);
    SlotTreeIsSound(year);
    SilentAllHaveNoEffect([SlotTree(year), month, day], v, order);
    EffectAllConcat([spec], [SlotTree(year), month, day], v, order);
    EffectOfNothing(v, order);
    assert trees == [spec] + [SlotTree(year), month, day];
  }
}
