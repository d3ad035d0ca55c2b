/**
 Completeness of the tables, item by item: from between items, the words of any item that no conflict of the
 grammar cuts short are read as that item and no other.
 */
module DateReader {
  import opened Options
  import opened DateTables
  import opened DateGrammar
  import opened DateAutomaton
  import opened DateActions
  import opened DateMachine

  // What a parse starts from
  datatype Source = Source(input: seq<Lexeme>, order: int, vars: Vars)

  // Configuration c is on the parse of the source: these states and trees, after n lexemes.
  ghost predicate Reached(src: Source, c: Config, states: seq<int>, trees: seq<Tree>, n: nat) {
    && LexerOutput(src.input)
    && Consistent(src.input, src.order, src.vars, c)
    && Run(src.input, src.order, src.vars, c) == Parse(src.input, src.order, src.vars)
    && c.states == states && states != [] && states[|states| - 1] != YYFINAL
    && c.trees == trees && |c.shifted| == n <= |src.input|
  }

  // The symbol of the next token, when it does not depend on what has been parsed
  predicate Next(input: seq<Lexeme>, n: nat, t: int) {
    if n < |input| then input[n].Fixed? && Yytranslate(input[n].code) == t else n == |input| && t == END
  }

  lemma NextIsFetched(input: seq<Lexeme>, order: int, v0: Vars, c: Config, t: int)
    requires LexerOutput(input) && Consistent(input, order, v0, c) && c.Top() != YYFINAL
    requires Next(input, |c.shifted|, t) && Yypact(c.Top()) != YYPACT_NINF
    ensures var d := Fetch(input, c); d.look.Some? && d.look.value.sym == t
    ensures var d := Fetch(input, c); |c.shifted| < |input| ==> d.look.value == LexToken(input[|c.shifted|], 0)
  {
    hide EffectAll, YieldAll, Linked, Labelled;
    if c.look.Some? {
      assert TokenAt(input, |c.shifted|, c.look.value);
    }
  }

  lemma MovesNeedTable(s: int, t: int)
    requires 0 <= s < 63 && 0 <= t < YYNTOKENS
    ensures Yypact(s) == YYPACT_NINF ==> Action(s, t) == DefaultMove(s)
  {
  }

  lemma ShiftStep(src: Source, c: Config, states: seq<int>, trees: seq<Tree>, n: nat, t: int, q: int)
    returns (d: Config)
    requires Reached(src, c, states, trees, n) && n < |src.input| && Next(src.input, n, t)
    requires 0 <= states[|states| - 1] < 63 && 0 <= t < YYNTOKENS && q != YYFINAL
    requires Action(states[|states| - 1], t) == Shift(q)
    ensures Reached(src, d, states + [q], trees + [Leaf(LexToken(src.input[n], 0))], n + 1) && d.look == None
  {
    hide Run, EffectAll, YieldAll, Linked, Labelled, Act, Yypact, Yycheck, Yytable, Yydefact, Parse;
    MovesNeedTable(c.Top(), t);
    NextIsFetched(src.input, src.order, src.vars, c, t);
    d := PushReached(src, c, states, trees, n, q);
  }

  lemma PushReached(src: Source, c: Config, states: seq<int>, trees: seq<Tree>, n: nat, q: int) returns (d: Config)
    requires Reached(src, c, states, trees, n) && n < |src.input| && q != YYFINAL && 0 <= c.Top() < 63
    requires var e := Fetch(src.input, c);
             Yypact(c.Top()) != YYPACT_NINF && e.look.Some? && 0 <= e.look.value.sym < YYNTOKENS
             && Action(c.Top(), e.look.value.sym) == Shift(q)
    ensures Reached(src, d, states + [q], trees + [Leaf(Fetch(src.input, c).look.value)], n + 1) && d.look == None
  {
    hide Act, Yypact, Action, Run, Consistent, Parse, LexerOutput, Fetch;
    StackOf(src.input, src.order, src.vars, c);
    FetchFrame(src.input, c);
    RunShifts(src.input, src.order, src.vars, c, q);
    d := Push(Fetch(src.input, c), q);
  }

  // The letter T between date and time: no time has been seen, so it separates them.
  lemma ShiftLetterT(src: Source, c: Config, states: seq<int>, trees: seq<Tree>, n: nat) returns (d: Config)
    requires Reached(src, c, states, trees, n) && n < |src.input| && src.input[n] == LetterT
    requires c.look == None && c.vars.haveTime == 0 && states[|states| - 1] == 49
    ensures Reached(src, d, states + [53], trees + [Leaf(LexToken(LetterT, 0))], n + 1) && d.look == None
  {
    hide Act, Action, Yypact, Linked, Labelled, EffectAll, YieldAll, Parse, Run;
    SeparatorIsShifted();
    d := PushReached(src, c, states, trees, n, 53);
  }

  lemma SeparatorIsShifted()
    ensures Yypact(49) != YYPACT_NINF && Action(49, RFC3339) == Shift(53)
  {
  }

  // Reducing the trees on top of base by rule r, which leads from base to state g
  lemma ReduceStep(src: Source, c: Config, base: seq<int>, top: seq<int>, below: seq<Tree>, kids: seq<Tree>, n: nat,
                   t: int, r: int, g: int) returns (d: Config)
    requires Reached(src, c, base + top, below + kids, n) && base != [] && 2 <= r < 52 && |top| == |kids| == |Rhs(r)|
    requires 0 <= base[|base| - 1] < 63 && SPEC <= Yyr1(r) < 37 && Goto(base[|base| - 1], Yyr1(r)) == g
    requires var s := (base + top)[|base + top| - 1];
             0 <= s < 63 && 0 <= t < YYNTOKENS && Action(s, t) == Reduce(r)
             && (Yypact(s) != YYPACT_NINF ==> Next(src.input, n, t))
    ensures Reached(src, d, base + [g], below + [Node(r, kids)], n)
    ensures Yypact((base + top)[|base + top| - 1]) == YYPACT_NINF ==> d.look == c.look
  {
    hide Run, EffectAll, YieldAll, Linked, Labelled, Act, Yypact, Yycheck, Yytable, Yydefact, Parse;
    hide Goto, Rhs, Yyr1;
    MovesNeedTable(c.Top(), t);
    if Yypact(c.Top()) != YYPACT_NINF {
      NextIsFetched(src.input, src.order, src.vars, c, t);
    }
    d := PopReached(src, c, base, top, below, kids, n, r, g);
  }

  lemma PopReached(src: Source, c: Config, base: seq<int>, top: seq<int>, below: seq<Tree>, kids: seq<Tree>, n: nat,
                   r: int, g: int) returns (d: Config)
    requires Reached(src, c, base + top, below + kids, n) && base != [] && 2 <= r < 52 && |top| == |kids| == |Rhs(r)|
    requires 0 <= base[|base| - 1] < 63 && SPEC <= Yyr1(r) < 37 && Goto(base[|base| - 1], Yyr1(r)) == g
    requires 0 <= c.Top() < 63
    requires var e := Fetch(src.input, c);
             (Yypact(c.Top()) != YYPACT_NINF ==> e.look.Some? && 0 <= e.look.value.sym < YYNTOKENS)
             && Decision(e) == Reduce(r)
    ensures Reached(src, d, base + [g], below + [Node(r, kids)], n)
    ensures Yypact(c.Top()) == YYPACT_NINF ==> d.look == c.look
  {
    hide Act, Decision, Yypact, Run, Consistent, Parse, Pop, Handle, Rank, Vals, Goto, Rhs;
    hide Fetch, LexerOutput, Linked, Reduces, Yyr1;
    StackOf(src.input, src.order, src.vars, c);
    FetchFrame(src.input, c);
    RunReduces(src.input, src.order, src.vars, c, r);
    LookIsKept(src.input, c);
    var e := Fetch(src.input, c);
    d := Pop(e, r, src.order);
    PopKeepsLook(e, r, src.order);
    SplitTop(base, top, below, kids);
    PopAsReplacement(e, r, g, src.order);
  }

  lemma SplitTop(base: seq<int>, top: seq<int>, below: seq<Tree>, kids: seq<Tree>)
    requires base != [] && |top| == |kids|
    ensures var ss, ts, k := base + top, below + kids, |kids|;
            && ss[..|ss| - k] == base && ss[|ss| - k - 1] == base[|base| - 1]
            && ts[..|ts| - k] == below && ts[|ts| - k..] == kids
  {
  }

  lemma LookIsKept(input: seq<Lexeme>, c: Config)
    requires c.states != [] && 0 <= c.Top() < 63 && |c.shifted| <= |input|
    ensures Yypact(c.Top()) == YYPACT_NINF ==> Fetch(input, c).look == c.look
  {
    hide Yypact, LexToken;
  }

  // ----- The parts of an item -----

  // What stands for one symbol of a rule: a word, a number, or an am/pm mark that may be missing
  datatype Slot = Word(x: Lexeme) | Numeral(x: Lexeme) | Mark(mark: Option<Lexeme>)

  function Tok(x: Lexeme): Token {
    LexToken(x, 0)
  }

  predicate SlotIsSound(s: Slot) {
    match s
    case Word(x) => x.Fixed? ==> x.code > 0
    case Numeral(x) => x.Fixed? && x.code > 0 && UNUMBER <= Tok(x).sym <= U6DIGIT
    case Mark(x) => x.Some? ==> x.value.Fixed? && x.value.code > 0 && Tok(x.value).sym == MERIDIAN
  }

  function SlotSym(s: Slot): int {
    match s
    case Word(x) => Tok(x).sym
    case Numeral(_) => UNUMBER_NT
    case Mark(_) => O_MERID
  }

  function SlotTree(s: Slot): Tree {
    match s
    case Word(x) => Leaf(Tok(x))
    case Numeral(x) => Node(Tok(x).sym + 31, [Leaf(Tok(x))])
    case Mark(None) => Node(50, [])
    case Mark(Some(x)) => Node(51, [Leaf(Tok(x))])
  }

  function SlotLexemes(s: Slot): seq<Lexeme> {
    match s
    case Word(x) => [x]
    case Numeral(x) => [x]
    case Mark(None) => []
    case Mark(Some(x)) => [x]
  }

  function Trees(slots: seq<Slot>): (ts: seq<Tree>)
    ensures |ts| == |slots| && forall i :: 0 <= i < |slots| ==> ts[i] == SlotTree(slots[i])
  {
    if slots == [] then [] else Trees(slots[..|slots| - 1]) + [SlotTree(slots[|slots| - 1])]
  }

  function LexemesOf(slots: seq<Slot>): seq<Lexeme> {
    if slots == [] then [] else LexemesOf(slots[..|slots| - 1]) + SlotLexemes(slots[|slots| - 1])
  }

  // The slots fill the right-hand side of rule r.
  predicate Fills(slots: seq<Slot>, r: int) {
    && |slots| == |Rhs(r)|
    && forall i :: 0 <= i < |slots| ==> SlotIsSound(slots[i]) && SlotSym(slots[i]) == Rhs(r)[i]
  }

  // The states above state 1 while rule r is read
  function Path(r: int): seq<int> {
    match r
    case 10 => [9, 33] case 11 => [10, 34] case 12 => [11, 35] case 13 => [23, 44, 50, 57]
    case 14 => [23, 44, 50, 55] case 15 => [23, 44, 50, 56, 59, 62] case 16 => [23, 44, 50, 56, 59, 61]
    case 17 => [14] case 18 => [4] case 19 => [14, 36] case 20 => [15] case 21 => [3] case 22 => [3, 25]
    case 23 => [23, 38] case 24 => [23, 45, 51] case 25 => [23, 45, 51, 58, 60] case 26 => [23, 42, 49, 53]
    case 27 => [12] case 28 => [23, 40, 47] case 29 => [6, 29] case 30 => [6, 29, 46, 52] case 31 => [23, 40]
    case 32 => [23, 40, 48] case 35 => [23, 39] case 36 => [8, 30] case 37 => [5] case 38 => [8, 32]
    case 39 => [23, 43] case 40 => [13] case 41 => [8, 31] case 42 => [23, 41] case 43 => [7]
    case 47 => [9] case 48 => [10] case 49 => [11] case _ => []
  }

  function PathState(r: int, i: nat): int {
    if 0 < i <= |Path(r)| then Path(r)[i - 1] else 1
  }

  // Tokens that can begin an item
  predicate BeginsItem(t: int) {
    t == DAY || t == DAYZONE || (MINUTE_UNIT <= t <= SNUMBER) || (UNUMBER <= t <= MILZONE)
  }

  // Where the grammar is ambiguous the tables go on with the item begun: a lone number before a word that makes it a
  // date, a weekday or a relative part, and a day and month before a number that makes a year.
  predicate MayFollow(r: int, t: int) {
    && (t == END || BeginsItem(t))
    && (47 <= r <= 49 ==> t == END || t == DAYZONE || UNUMBER <= t <= U8DIGIT || t == ZONE || t == MILZONE)
    && (r == 31 ==> t != SNUMBER && !(UNUMBER <= t <= U6DIGIT))
  }

  // The same, or the word that turns a relative part around, or a signed year that nothing can take
  predicate Ends(r: int, t: int) {
    MayFollow(r, t) || (35 <= r <= 43 && t == AGO) || (r == 31 && t == S4DIGIT)
  }

  // ----- What the tables say about these rules -----

  lemma PathLength(r: int)
    requires Simple(r)
    ensures |Path(r)| == |Rhs(r)| > 0 && forall i :: 0 <= i < |Path(r)| ==> 2 < Path(r)[i] < 63
  {
  }

  lemma ShiftsBetweenItems1()
    ensures Action(1, DAY) == Shift(3) && Action(1, DAYZONE) == Shift(4) && Action(1, MINUTE_UNIT) == Shift(5)
    ensures Action(1, MONTH) == Shift(6)
  {
    assert Yypact(1) == 49;
    assert Yycheck(53) == DAY && Yytable(53) == 3;
    assert Yycheck(54) == DAYZONE && Yytable(54) == 4;
    assert Yycheck(57) == MINUTE_UNIT && Yytable(57) == 5;
    assert Yycheck(58) == MONTH && Yytable(58) == 6;
    hide Yypact, Yycheck, Yytable, Yydefact;
  }

  lemma ShiftsBetweenItems2()
    ensures Action(1, MONTH_UNIT) == Shift(7) && Action(1, SNUMBER) == Shift(8) && Action(1, UNUMBER) == Shift(9)
    ensures Action(1, U4DIGIT) == Shift(10)
  {
    assert Yypact(1) == 49;
    assert Yycheck(59) == MONTH_UNIT && Yytable(59) == 7;
    assert Yycheck(60) == SNUMBER && Yytable(60) == 8;
    assert Yycheck(62) == UNUMBER && Yytable(62) == 9;
    assert Yycheck(63) == U4DIGIT && Yytable(63) == 10;
    hide Yypact, Yycheck, Yytable, Yydefact;
  }

  lemma ShiftsBetweenItems3()
    ensures Action(1, U6DIGIT) == Shift(11) && Action(1, U8DIGIT) == Shift(12) && Action(1, SEC_UNIT) == Shift(13)
    ensures Action(1, ZONE) == Shift(14)
  {
    assert Yypact(1) == 49;
    assert Yycheck(64) == U6DIGIT && Yytable(64) == 11;
    assert Yycheck(65) == U8DIGIT && Yytable(65) == 12;
    assert Yycheck(66) == SEC_UNIT && Yytable(66) == 13;
    assert Yycheck(67) == ZONE && Yytable(67) == 14;
    hide Yypact, Yycheck, Yytable, Yydefact;
  }

  lemma ShiftsBetweenItems4()
    ensures Action(1, MILZONE) == Shift(15)
  {
    assert Yypact(1) == 49;
    assert Yycheck(68) == MILZONE && Yytable(68) == 15;
    hide Yypact, Yycheck, Yytable, Yydefact;
  }

  lemma ShiftsBetweenItems()
    ensures Action(1, DAY) == Shift(3) && Action(1, DAYZONE) == Shift(4) && Action(1, MINUTE_UNIT) == Shift(5)
    ensures Action(1, MONTH) == Shift(6) && Action(1, MONTH_UNIT) == Shift(7) && Action(1, SNUMBER) == Shift(8)
    ensures Action(1, UNUMBER) == Shift(9) && Action(1, U4DIGIT) == Shift(10) && Action(1, U6DIGIT) == Shift(11)
    ensures Action(1, U8DIGIT) == Shift(12) && Action(1, SEC_UNIT) == Shift(13) && Action(1, ZONE) == Shift(14)
    ensures Action(1, MILZONE) == Shift(15)
  {
    hide Action;
    ShiftsBetweenItems1();
    ShiftsBetweenItems2();
    ShiftsBetweenItems3();
    ShiftsBetweenItems4();
  }

  lemma ShiftsAfterFirstToken1()
    ensures Action(3, COMMA) == Shift(25) && Action(14, DST) == Shift(36) && Action(22, AGO) == Shift(37)
    ensures Action(9, MERIDIAN) == Shift(33)
  {
    assert Yypact(3) == -10 && Yypact(14) == -9 && Yypact(22) == 13 && Yypact(9) == 10;
    assert Yycheck(13) == COMMA && Yytable(13) == 25;
    assert Yycheck(12) == DST && Yytable(12) == 36;
    assert Yycheck(16) == AGO && Yytable(16) == 37;
    assert Yycheck(17) == MERIDIAN && Yytable(17) == 33;
    hide Yypact, Yycheck, Yytable, Yydefact;
  }

  lemma ShiftsAfterFirstToken2()
    ensures Action(10, S4DIGIT) == Shift(34) && Action(11, S4DIGIT) == Shift(35) && Action(8, MINUTE_UNIT) == Shift(30)
    ensures Action(8, MONTH_UNIT) == Shift(31)
  {
    assert Yypact(10) == 69 && Yypact(11) == 86 && Yypact(8) == 1;
    assert Yycheck(81) == S4DIGIT && Yytable(81) == 34;
    assert Yycheck(98) == S4DIGIT && Yytable(98) == 35;
    assert Yycheck(9) == MINUTE_UNIT && Yytable(9) == 30;
    assert Yycheck(11) == MONTH_UNIT && Yytable(11) == 31;
    hide Yypact, Yycheck, Yytable, Yydefact;
  }

  lemma ShiftsAfterFirstToken3()
    ensures Action(8, SEC_UNIT) == Shift(32)
  {
    assert Yypact(8) == 1;
    assert Yycheck(18) == SEC_UNIT && Yytable(18) == 32;
    hide Yypact, Yycheck, Yytable, Yydefact;
  }

  lemma ShiftsAfterFirstToken()
    ensures Action(3, COMMA) == Shift(25) && Action(14, DST) == Shift(36) && Action(22, AGO) == Shift(37)
    ensures Action(9, MERIDIAN) == Shift(33) && Action(10, S4DIGIT) == Shift(34) && Action(11, S4DIGIT) == Shift(35)
    ensures Action(8, MINUTE_UNIT) == Shift(30) && Action(8, MONTH_UNIT) == Shift(31)
    ensures Action(8, SEC_UNIT) == Shift(32)
  {
    hide Action;
    ShiftsAfterFirstToken1();
    ShiftsAfterFirstToken2();
    ShiftsAfterFirstToken3();
  }

  lemma ShiftsAfterNumber1()
    ensures Action(23, DAY) == Shift(38) && Action(23, MINUTE_UNIT) == Shift(39) && Action(23, MONTH) == Shift(40)
    ensures Action(23, MONTH_UNIT) == Shift(41)
  {
    assert Yypact(23) == -3;
    assert Yycheck(1) == DAY && Yytable(1) == 38;
    assert Yycheck(5) == MINUTE_UNIT && Yytable(5) == 39;
    assert Yycheck(6) == MONTH && Yytable(6) == 40;
    assert Yycheck(7) == MONTH_UNIT && Yytable(7) == 41;
    hide Yypact, Yycheck, Yytable, Yydefact;
  }

  lemma ShiftsAfterNumber2()
    ensures Action(23, SNUMBER) == Shift(42) && Action(23, SEC_UNIT) == Shift(43) && Action(23, COLON) == Shift(44)
    ensures Action(23, SLASH) == Shift(45)
  {
    assert Yypact(23) == -3;
    assert Yycheck(8) == SNUMBER && Yytable(8) == 42;
    assert Yycheck(14) == SEC_UNIT && Yytable(14) == 43;
    assert Yycheck(19) == COLON && Yytable(19) == 44;
    assert Yycheck(21) == SLASH && Yytable(21) == 45;
    hide Yypact, Yycheck, Yytable, Yydefact;
  }

  lemma ShiftsAfterNumber()
    ensures Action(23, DAY) == Shift(38) && Action(23, MINUTE_UNIT) == Shift(39) && Action(23, MONTH) == Shift(40)
    ensures Action(23, MONTH_UNIT) == Shift(41) && Action(23, SNUMBER) == Shift(42) && Action(23, SEC_UNIT) == Shift(43)
    ensures Action(23, COLON) == Shift(44) && Action(23, SLASH) == Shift(45)
  {
    hide Action;
    ShiftsAfterNumber1();
    ShiftsAfterNumber2();
  }

  lemma ShiftsInside1()
    ensures Action(29, COMMA) == Shift(46) && Action(40, SNUMBER) == Shift(47) && Action(42, SNUMBER) == Shift(49)
  {
    assert Yypact(29) == 8 && Yypact(40) == 30 && Yypact(42) == 9;
    assert Yycheck(31) == COMMA && Yytable(31) == 46;
    assert Yycheck(41) == SNUMBER && Yytable(41) == 47;
    assert Yycheck(20) == SNUMBER && Yytable(20) == 49;
    hide Yypact, Yycheck, Yytable, Yydefact;
  }

  lemma ShiftsInside2()
    ensures Action(49, RFC3339) == Shift(53) && Action(50, S4DIGIT) == Shift(55) && Action(50, COLON) == Shift(56)
  {
    assert Yypact(49) == 12 && Yypact(50) == 15;
    assert Yycheck(32) == RFC3339 && Yytable(32) == 53;
    assert Yycheck(27) == S4DIGIT && Yytable(27) == 55;
    assert Yycheck(37) == COLON && Yytable(37) == 56;
    hide Yypact, Yycheck, Yytable, Yydefact;
  }

  lemma ShiftsInside3()
    ensures Action(51, SLASH) == Shift(58) && Action(59, S4DIGIT) == Shift(61)
  {
    assert Yypact(51) == 18 && Yypact(59) == 23;
    assert Yycheck(42) == SLASH && Yytable(42) == 58;
    assert Yycheck(35) == S4DIGIT && Yytable(35) == 61;
    hide Yypact, Yycheck, Yytable, Yydefact;
  }

  lemma ShiftsInside()
    ensures Action(29, COMMA) == Shift(46) && Action(40, SNUMBER) == Shift(47) && Action(42, SNUMBER) == Shift(49)
    ensures Action(49, RFC3339) == Shift(53) && Action(50, S4DIGIT) == Shift(55) && Action(50, COLON) == Shift(56)
    ensures Action(51, SLASH) == Shift(58) && Action(59, S4DIGIT) == Shift(61)
  {
    hide Action;
    ShiftsInside1();
    ShiftsInside2();
    ShiftsInside3();
  }

  lemma ShiftsOfMarks()
    ensures Action(50, MERIDIAN) == Shift(54) && Action(59, MERIDIAN) == Shift(54)
  {
    assert Yypact(50) == 15 && Yypact(59) == 23;
    assert Yycheck(22) == MERIDIAN && Yytable(22) == 54;
    assert Yycheck(30) == MERIDIAN && Yytable(30) == 54;
    hide Yypact, Yycheck, Yytable, Yydefact;
  }

  // Right-hand sides and paths side by side
  lemma RowsOfTimes()
    ensures Rhs(10) == [UNUMBER, MERIDIAN] && Path(10) == [9, 33]
    ensures Rhs(11) == [U4DIGIT, S4DIGIT] && Path(11) == [10, 34]
    ensures Rhs(12) == [U6DIGIT, S4DIGIT] && Path(12) == [11, 35]
    ensures Rhs(13) == [UNUMBER_NT, COLON, UNUMBER_NT, O_MERID] && Path(13) == [23, 44, 50, 57]
    ensures Rhs(14) == [UNUMBER_NT, COLON, UNUMBER_NT, S4DIGIT] && Path(14) == [23, 44, 50, 55]
    ensures Rhs(15) == [UNUMBER_NT, COLON, UNUMBER_NT, COLON, UNUMBER_NT, O_MERID]
    ensures Rhs(16) == [UNUMBER_NT, COLON, UNUMBER_NT, COLON, UNUMBER_NT, S4DIGIT]
    ensures Path(15) == [23, 44, 50, 56, 59, 62] && Path(16) == [23, 44, 50, 56, 59, 61]
  {
  }

  lemma RowsOfZones()
    ensures Rhs(17) == [ZONE] && Path(17) == [14]
    ensures Rhs(18) == [DAYZONE] && Path(18) == [4]
    ensures Rhs(19) == [ZONE, DST] && Path(19) == [14, 36]
    ensures Rhs(20) == [MILZONE] && Path(20) == [15]
  {
  }

  lemma RowsOfDays()
    ensures Rhs(21) == [DAY] && Path(21) == [3]
    ensures Rhs(22) == [DAY, COMMA] && Path(22) == [3, 25]
    ensures Rhs(23) == [UNUMBER_NT, DAY] && Path(23) == [23, 38]
  {
  }

  lemma RowsOfDates()
    ensures Rhs(24) == [UNUMBER_NT, SLASH, UNUMBER_NT] && Path(24) == [23, 45, 51]
    ensures Rhs(25) == [UNUMBER_NT, SLASH, UNUMBER_NT, SLASH, UNUMBER_NT] && Path(25) == [23, 45, 51, 58, 60]
    ensures Rhs(26) == [UNUMBER_NT, SNUMBER, SNUMBER, RFC3339] && Path(26) == [23, 42, 49, 53]
    ensures Rhs(27) == [U8DIGIT] && Path(27) == [12]
    ensures Rhs(28) == [UNUMBER_NT, MONTH, SNUMBER] && Path(28) == [23, 40, 47]
  {
  }

  lemma RowsOfNamedDates()
    ensures Rhs(29) == [MONTH, UNUMBER_NT] && Path(29) == [6, 29]
    ensures Rhs(30) == [MONTH, UNUMBER_NT, COMMA, UNUMBER_NT] && Path(30) == [6, 29, 46, 52]
    ensures Rhs(31) == [UNUMBER_NT, MONTH] && Path(31) == [23, 40]
    ensures Rhs(32) == [UNUMBER_NT, MONTH, UNUMBER_NT] && Path(32) == [23, 40, 48]
  {
  }

  lemma RowsOfMinutes()
    ensures Rhs(35) == [UNUMBER_NT, MINUTE_UNIT] && Path(35) == [23, 39]
    ensures Rhs(36) == [SNUMBER, MINUTE_UNIT] && Path(36) == [8, 30]
    ensures Rhs(37) == [MINUTE_UNIT] && Path(37) == [5]
    ensures Rhs(38) == [SNUMBER, SEC_UNIT] && Path(38) == [8, 32]
  {
  }

  lemma RowsOfUnits()
    ensures Rhs(39) == [UNUMBER_NT, SEC_UNIT] && Path(39) == [23, 43]
    ensures Rhs(40) == [SEC_UNIT] && Path(40) == [13]
    ensures Rhs(41) == [SNUMBER, MONTH_UNIT] && Path(41) == [8, 31]
    ensures Rhs(42) == [UNUMBER_NT, MONTH_UNIT] && Path(42) == [23, 41]
    ensures Rhs(43) == [MONTH_UNIT] && Path(43) == [7]
  {
  }

  lemma RowsOfNumbers()
    ensures Rhs(47) == [UNUMBER] && Path(47) == [9]
    ensures Rhs(48) == [U4DIGIT] && Path(48) == [10]
    ensures Rhs(49) == [U6DIGIT] && Path(49) == [11]
  {
  }

  predicate WordIsShifted(r: int, i: int)
    requires 0 <= i < |Rhs(r)| == |Path(r)|
  {
    var x := Rhs(r)[i];
    0 <= x < YYNTOKENS ==> 0 <= PathState(r, i) < 63 && Action(PathState(r, i), x) == Shift(Path(r)[i])
  }

  lemma WordsOfTimes(r: int, i: nat)
    requires 10 <= r <= 16
    ensures |Path(r)| == |Rhs(r)| && (i < |Rhs(r)| ==> WordIsShifted(r, i))
  {
    hide Action, Rhs, Path;
    ShiftsBetweenItems();
    ShiftsAfterFirstToken();
    ShiftsAfterNumber();
    ShiftsInside();
    RowsOfTimes();
  }

  lemma WordsOfZonesAndDays(r: int, i: nat)
    requires 17 <= r <= 23
    ensures |Path(r)| == |Rhs(r)| && (i < |Rhs(r)| ==> WordIsShifted(r, i))
  {
    hide Action, Rhs, Path;
    ShiftsBetweenItems();
    ShiftsAfterFirstToken();
    ShiftsAfterNumber();
    ShiftsInside();
    RowsOfZones();
    RowsOfDays();
  }

  lemma WordsOfDates(r: int, i: nat)
    requires 24 <= r <= 32
    ensures |Path(r)| == |Rhs(r)| && (i < |Rhs(r)| ==> WordIsShifted(r, i))
  {
    hide Action, Rhs, Path;
    ShiftsBetweenItems();
    ShiftsAfterFirstToken();
    ShiftsAfterNumber();
    ShiftsInside();
    RowsOfDates();
    RowsOfNamedDates();
  }

  lemma WordsOfUnits(r: int, i: nat)
    requires 35 <= r <= 43
    ensures |Path(r)| == |Rhs(r)| && (i < |Rhs(r)| ==> WordIsShifted(r, i))
  {
    hide Action, Rhs, Path;
    ShiftsBetweenItems();
    ShiftsAfterFirstToken();
    ShiftsAfterNumber();
    ShiftsInside();
    RowsOfMinutes();
    RowsOfUnits();
  }

  lemma WordsOfNumbers(r: int, i: nat)
    requires 47 <= r <= 49
    ensures |Path(r)| == |Rhs(r)| && (i < |Rhs(r)| ==> WordIsShifted(r, i))
  {
    hide Action, Rhs, Path;
    ShiftsBetweenItems();
    ShiftsAfterFirstToken();
    ShiftsAfterNumber();
    ShiftsInside();
    RowsOfNumbers();
  }

  // Every word of a rule is shifted on the path of the rule.
  lemma WordsAreShifted(r: int, i: nat)
    requires Simple(r)
    ensures |Path(r)| == |Rhs(r)| && (i < |Rhs(r)| ==> WordIsShifted(r, i))
  {
    hide WordIsShifted, Rhs, Path;
    if r <= 16 {
      WordsOfTimes(r, i);
    } else if r <= 23 {
      WordsOfZonesAndDays(r, i);
    } else if r <= 32 {
      WordsOfDates(r, i);
    } else if r <= 43 {
      WordsOfUnits(r, i);
    } else {
      WordsOfNumbers(r, i);
    }
  }

  // Tokens that make a number at the start of an item the beginning of something longer
  predicate GoesOn(t: int) {
    t == DAY || t == MINUTE_UNIT || t == MONTH || t == MONTH_UNIT || t == SNUMBER || t == SEC_UNIT || t == COLON
    || t == SLASH
  }

  lemma NumbersGoOn(k: int, t: int)
    requires UNUMBER <= k <= U6DIGIT && GoesOn(t)
    ensures Action(k - 4, t) == Reduce(k + 31)
  {
    assert Yypact(9) == 10 && Yydefact(9) == 44;
    assert Yypact(10) == 69 && Yydefact(10) == 45;
    assert Yypact(11) == 86 && Yydefact(11) == 46;
  }

  lemma NumbersInside(p: int, k: int)
    requires UNUMBER <= k <= U6DIGIT && NumberExpected(p)
    ensures Action(p, k) == Shift(k + 13)
  {
  }

  lemma NumbersEnd(k: int, t: int)
    requires UNUMBER <= k <= U6DIGIT && 0 <= t < YYNTOKENS
    ensures Action(k + 13, t) == Reduce(k + 31) && Yypact(k + 13) == YYPACT_NINF
  {
    assert Yypact(26) == Yypact(27) == Yypact(28) == YYPACT_NINF;
    assert Yydefact(26) == 44 && Yydefact(27) == 45 && Yydefact(28) == 46;
  }

  lemma NumberGotos()
    ensures Goto(1, UNUMBER_NT) == 23 && Goto(6, UNUMBER_NT) == 29 && Goto(40, UNUMBER_NT) == 48
    ensures Goto(44, UNUMBER_NT) == 50 && Goto(45, UNUMBER_NT) == 51 && Goto(46, UNUMBER_NT) == 52
    ensures Goto(56, UNUMBER_NT) == 59 && Goto(58, UNUMBER_NT) == 60
  {
  }

  lemma NumberRules()
    ensures |Rhs(44)| == |Rhs(45)| == |Rhs(46)| == 1 && Yyr1(44) == Yyr1(45) == Yyr1(46) == UNUMBER_NT
    ensures |Rhs(50)| == 0 && |Rhs(51)| == 1 && Yyr1(50) == Yyr1(51) == O_MERID
  {
  }

  lemma MarkMayBeMissing(t: int)
    requires t == END || BeginsItem(t)
    ensures Action(50, t) == Action(59, t) == Reduce(50)
  {
    assert Yypact(50) == 15 && Yydefact(50) == 50 && Yypact(59) == 23 && Yydefact(59) == 50;
  }

  lemma MarkGotos()
    ensures Goto(50, O_MERID) == 57 && Goto(59, O_MERID) == 62
    ensures Yypact(54) == YYPACT_NINF && Yydefact(54) == 51
  {
  }

  lemma MarkMoves(t: int)
    requires t == END || BeginsItem(t)
    ensures Action(50, t) == Action(59, t) == Reduce(50) && Action(54, t) == Reduce(51)
    ensures Yypact(54) == YYPACT_NINF && Goto(50, O_MERID) == 57 && Goto(59, O_MERID) == 62
  {
    hide Goto, Yypact, Yydefact;
    MarkMayBeMissing(t);
    MarkGotos();
  }

  // ----- The end of a rule -----

  predicate AlwaysReduces(s: int, r: int)
    requires 0 <= s < 63
  {
    Yypact(s) == YYPACT_NINF && Yydefact(s) == r && r > 0
  }

  lemma AlwaysReducesOn(s: int, r: int, t: int)
    requires 0 <= s < 63 && AlwaysReduces(s, r) && 0 <= t < YYNTOKENS
    ensures Action(s, t) == Reduce(r)
  {
    hide Yypact, Yydefact;
  }

  lemma EndsOfTimes()
    ensures AlwaysReduces(33, 10) && AlwaysReduces(34, 11) && AlwaysReduces(35, 12)
  {
  }

  lemma EndsOfClocks()
    ensures AlwaysReduces(57, 13) && AlwaysReduces(55, 14) && AlwaysReduces(62, 15) && AlwaysReduces(61, 16)
  {
  }

  lemma EndsOfZonesAndDays()
    ensures AlwaysReduces(4, 18) && AlwaysReduces(36, 19) && AlwaysReduces(15, 20)
    ensures AlwaysReduces(25, 22) && AlwaysReduces(38, 23)
  {
  }

  lemma EndsOfDates()
    ensures AlwaysReduces(60, 25) && AlwaysReduces(53, 26) && AlwaysReduces(12, 27) && AlwaysReduces(47, 28)
    ensures AlwaysReduces(52, 30) && AlwaysReduces(48, 32)
  {
  }

  lemma EndsOfUnits()
    ensures AlwaysReduces(39, 35) && AlwaysReduces(30, 36) && AlwaysReduces(5, 37) && AlwaysReduces(32, 38)
    ensures AlwaysReduces(43, 39) && AlwaysReduces(13, 40) && AlwaysReduces(31, 41) && AlwaysReduces(41, 42)
    ensures AlwaysReduces(7, 43)
  {
  }

  // The rules after which a token could go on
  lemma OpenEnds(r: int, t: int)
    requires MayFollow(r, t)
    ensures r == 17 ==> Action(14, t) == Reduce(17)
    ensures r == 21 ==> Action(3, t) == Reduce(21)
    ensures r == 24 ==> Action(51, t) == Reduce(24)
    ensures r == 29 ==> Action(29, t) == Reduce(29)
  {
    assert Yypact(14) == -9 && Yydefact(14) == 17 && Yypact(3) == -10 && Yydefact(3) == 21;
    assert Yypact(51) == 18 && Yydefact(51) == 24 && Yypact(29) == 8 && Yydefact(29) == 29;
  }

  lemma DayAndMonthEnd(t: int)
    requires MayFollow(31, t) || t == S4DIGIT
    ensures Action(40, t) == Reduce(31)
  {
    assert Yypact(40) == 30 && Yydefact(40) == 31;
  }

  lemma LoneNumbersEnd(r: int, t: int)
    requires 47 <= r <= 49 && MayFollow(r, t)
    ensures Action(r - 38, t) == Reduce(r)
  {
    assert Yypact(9) == 10 && Yypact(10) == 69 && Yypact(11) == 86;
  }

  lemma UnitsEnd(t: int)
    requires t == END || BeginsItem(t)
    ensures Action(22, t) == Reduce(34) && AlwaysReduces(37, 33)
  {
    assert Yypact(22) == 13 && Yydefact(22) == 34;
  }

  lemma EndOfRule(r: int, t: int)
    requires Simple(r) && Ends(r, t)
    ensures 0 <= t < YYNTOKENS && |Path(r)| == |Rhs(r)| > 0 && 0 <= PathState(r, |Rhs(r)|) < 63
    ensures Action(PathState(r, |Rhs(r)|), t) == Reduce(r)
  {
    hide Action, Rhs, AlwaysReduces, Simple;
    PathLength(r);
    assert 0 <= t < YYNTOKENS;
    var s := PathState(r, |Rhs(r)|);
    if r <= 16 {
      hide Ends;
      EndsOfTimes();
      EndsOfClocks();
      AlwaysReducesOn(s, r, t);
    } else if r in {17, 21, 24, 29} {
      OpenEnds(r, t);
    } else if r <= 23 {
      hide Ends;
      EndsOfZonesAndDays();
      AlwaysReducesOn(s, r, t);
    } else if r == 31 {
      DayAndMonthEnd(t);
    } else if r <= 32 {
      hide Ends;
      EndsOfDates();
      AlwaysReducesOn(s, r, t);
    } else if r <= 43 {
      hide Ends;
      EndsOfUnits();
      AlwaysReducesOn(s, r, t);
    } else {
      LoneNumbersEnd(r, t);
    }
  }

  // ----- Reading one slot -----

  // From state s the slot leads to state g, if token t comes after it.
  predicate SlotEnters(s: int, slot: Slot, g: int, t: int)
    requires 0 <= s < 63 && SlotIsSound(slot) && 0 <= t < YYNTOKENS
  {
    match slot
    case Word(x) => 0 <= Tok(x).sym < YYNTOKENS && Action(s, Tok(x).sym) == Shift(g) && g != YYFINAL
    case Numeral(x) =>
      var k := Tok(x).sym;
      var q := if s == 1 then k - 4 else k + 13;
      && Action(s, k) == Shift(q) && Action(q, t) == Reduce(k + 31) && Goto(s, UNUMBER_NT) == g
    case Mark(x) =>
      && Goto(s, O_MERID) == g
      && (if x.None? then Action(s, t) == Reduce(50)
          else Action(s, MERIDIAN) == Shift(54) && Action(54, t) == Reduce(51))
  }

  // The lexemes from position n on
  predicate Holds(input: seq<Lexeme>, n: nat, xs: seq<Lexeme>) {
    n + |xs| <= |input| && forall i :: 0 <= i < |xs| ==> input[n + i] == xs[i]
  }

  lemma ReadNumeral(src: Source, c: Config, base: seq<int>, below: seq<Tree>, n: nat, x: Lexeme, g: int, t: int)
    returns (d: Config)
    requires base != [] && 0 <= base[|base| - 1] < 63 && Reached(src, c, base, below, n)
    requires SlotIsSound(Numeral(x)) && Holds(src.input, n, [x]) && 0 <= t < YYNTOKENS
    requires SlotEnters(base[|base| - 1], Numeral(x), g, t) && Next(src.input, n + 1, t)
    ensures Reached(src, d, base + [g], below + [SlotTree(Numeral(x))], n + 1)
  {
    hide Reached, Action, Goto, Rhs, Yyr1;
    NumberRules();
    var k := Tok(x).sym;
    var q := if base[|base| - 1] == 1 then k - 4 else k + 13;
    assert src.input[n + 0] == [x][0];
    var e := ShiftStep(src, c, base, below, n, k, q);
    d := ReduceStep(src, e, base, [q], below, [Leaf(Tok(x))], n + 1, t, k + 31, g);
  }

  lemma ReadMark(src: Source, c: Config, base: seq<int>, below: seq<Tree>, n: nat, x: Option<Lexeme>, g: int, t: int)
    returns (d: Config)
    requires base != [] && 0 <= base[|base| - 1] < 63 && Reached(src, c, base, below, n)
    requires SlotIsSound(Mark(x)) && Holds(src.input, n, SlotLexemes(Mark(x))) && 0 <= t < YYNTOKENS
    requires SlotEnters(base[|base| - 1], Mark(x), g, t) && Next(src.input, n + |SlotLexemes(Mark(x))|, t)
    ensures Reached(src, d, base + [g], below + [SlotTree(Mark(x))], n + |SlotLexemes(Mark(x))|)
  {
    hide Reached, Action, Goto, Rhs, Yyr1;
    NumberRules();
    match x
    case None =>
      assert base + [] == base && below + [] == below;
      d := ReduceStep(src, c, base, [], below, [], n, t, 50, g);
    case Some(m) =>
      assert src.input[n + 0] == SlotLexemes(Mark(x))[0];
      var e := ShiftStep(src, c, base, below, n, MERIDIAN, 54);
      d := ReduceStep(src, e, base, [54], below, [Leaf(Tok(m))], n + 1, t, 51, g);
  }

  // A letter T is read as a separator after the two parts of a date that come before it.
  predicate SeparatesAt(c: Config, s: int, slot: Slot) {
    slot == Word(LetterT) ==> s == 49 && c.look == None && c.vars.haveTime == 0
  }

  lemma ReadSlot(src: Source, c: Config, base: seq<int>, below: seq<Tree>, n: nat, slot: Slot, g: int, t: int)
    returns (d: Config)
    requires base != [] && 0 <= base[|base| - 1] < 63 && Reached(src, c, base, below, n)
    requires SlotIsSound(slot) && Holds(src.input, n, SlotLexemes(slot)) && 0 <= t < YYNTOKENS
    requires SlotEnters(base[|base| - 1], slot, g, t) && (slot.Word? || Next(src.input, n + |SlotLexemes(slot)|, t))
    requires SeparatesAt(c, base[|base| - 1], slot)
    ensures Reached(src, d, base + [g], below + [SlotTree(slot)], n + |SlotLexemes(slot)|)
    ensures slot.Word? ==> d.look == None
  {
    hide Reached, Action, Goto;
    match slot
    case Word(x) =>
      assert src.input[n + 0] == SlotLexemes(slot)[0];
      if x == LetterT {
        SeparatorIsShifted();
        d := ShiftLetterT(src, c, base, below, n);
      } else {
        d := ShiftStep(src, c, base, below, n, Tok(x).sym, g);
      }
    case Numeral(x) =>
      d := ReadNumeral(src, c, base, below, n, x, g, t);
    case Mark(x) =>
      d := ReadMark(src, c, base, below, n, x, g, t);
  }

  // ----- Reading the slots of a rule -----

  // The token after slot i, if token t comes after them all
  function TokenAfter(slots: seq<Slot>, i: nat, t: int): int
    requires i < |slots|
  {
    if i + 1 == |slots| then t
    else
      match slots[i + 1]
      case Word(x) => Tok(x).sym
      case Numeral(x) => Tok(x).sym
      case Mark(x) => if x.Some? then MERIDIAN else t
  }

  lemma WordSlotEnters(r: int, slots: seq<Slot>, i: nat, t: int)
    requires Simple(r) && Fills(slots, r) && i < |slots| && slots[i].Word? && 0 <= t < YYNTOKENS
    ensures |Path(r)| == |Rhs(r)| && 0 <= PathState(r, i) < 63 && SlotEnters(PathState(r, i), slots[i], Path(r)[i], t)
  {
    hide Action, Goto, Rhs, Path, Simple;
    WordsAreShifted(r, i);
    PathLength(r);
  }

  // A number that begins an item goes on with a word; inside one it stands where a number is expected.
  predicate NumeralIsPlaced(r: int, i: nat)
    requires i < |Rhs(r)| == |Path(r)| && 0 <= PathState(r, i) < 63
  {
    if i == 0 then 1 < |Rhs(r)| && GoesOn(Rhs(r)[1]) && Path(r)[0] == 23
    else NumberExpected(PathState(r, i)) && Path(r)[i] == Goto(PathState(r, i), UNUMBER_NT)
  }

  predicate MarkIsPlaced(r: int, i: nat)
    requires i < |Rhs(r)| == |Path(r)|
  {
    && |Path(r)| == i + 1
    && ((PathState(r, i) == 50 && Path(r)[i] == 57) || (PathState(r, i) == 59 && Path(r)[i] == 62))
  }

  predicate Placed(r: int, i: nat)
    requires i < |Rhs(r)| == |Path(r)| && 0 <= PathState(r, i) < 63
  {
    (Rhs(r)[i] == UNUMBER_NT ==> NumeralIsPlaced(r, i)) && (Rhs(r)[i] == O_MERID ==> MarkIsPlaced(r, i))
  }

  lemma PlacesInTimes(r: int, i: nat)
    requires 10 <= r <= 16 && i < |Rhs(r)|
    ensures |Path(r)| == |Rhs(r)| && 0 <= PathState(r, i) < 63 && Placed(r, i)
  {
    hide Goto, Rhs, Path;
    NumberGotos();
    RowsOfTimes();
  }

  lemma PlacesInZonesAndDays(r: int, i: nat)
    requires 17 <= r <= 23 && i < |Rhs(r)|
    ensures |Path(r)| == |Rhs(r)| && 0 <= PathState(r, i) < 63 && Placed(r, i)
  {
    hide Goto, Rhs, Path;
    NumberGotos();
    RowsOfZones();
    RowsOfDays();
  }

  lemma PlacesInDates(r: int, i: nat)
    requires 24 <= r <= 32 && i < |Rhs(r)|
    ensures |Path(r)| == |Rhs(r)| && 0 <= PathState(r, i) < 63 && Placed(r, i)
  {
    hide Goto, Rhs, Path;
    NumberGotos();
    RowsOfDates();
    RowsOfNamedDates();
  }

  lemma PlacesInUnits(r: int, i: nat)
    requires 35 <= r <= 43 && i < |Rhs(r)|
    ensures |Path(r)| == |Rhs(r)| && 0 <= PathState(r, i) < 63 && Placed(r, i)
  {
    hide Goto, Rhs, Path;
    NumberGotos();
    RowsOfMinutes();
    RowsOfUnits();
  }

  lemma PlacesInNumbers(r: int, i: nat)
    requires 47 <= r <= 49 && i < |Rhs(r)|
    ensures |Path(r)| == |Rhs(r)| && 0 <= PathState(r, i) < 63 && Placed(r, i)
  {
    hide Goto, Rhs, Path;
    RowsOfNumbers();
  }

  lemma Places(r: int, i: nat)
    requires Simple(r) && i < |Rhs(r)|
    ensures |Path(r)| == |Rhs(r)| && 0 <= PathState(r, i) < 63 && Placed(r, i)
  {
    hide Rhs, Path, Placed;
    if r <= 16 {
      PlacesInTimes(r, i);
    } else if r <= 23 {
      PlacesInZonesAndDays(r, i);
    } else if r <= 32 {
      PlacesInDates(r, i);
    } else if r <= 43 {
      PlacesInUnits(r, i);
    } else {
      PlacesInNumbers(r, i);
    }
  }

  lemma NumeralSlotEnters(r: int, slots: seq<Slot>, i: nat, t: int)
    requires Simple(r) && Fills(slots, r) && i < |slots| && slots[i].Numeral? && 0 <= t < YYNTOKENS
    requires i == 0 && 1 < |slots| && slots[1].Word? ==> t == Tok(slots[1].x).sym
    ensures |Path(r)| == |Rhs(r)| && 0 <= PathState(r, i) < 63 && SlotEnters(PathState(r, i), slots[i], Path(r)[i], t)
  {
    hide Action, Goto, Rhs, Path, Simple;
    Places(r, i);
    ShiftsBetweenItems();
    NumberGotos();
    var k := Tok(slots[i].x).sym;
    if i == 0 {
      assert slots[1].Word?;
      NumbersGoOn(k, t);
    } else {
      NumbersInside(PathState(r, i), k);
      NumbersEnd(k, t);
    }
  }

  lemma MarkSlotEnters(r: int, slots: seq<Slot>, i: nat, t: int)
    requires Simple(r) && Fills(slots, r) && i < |slots| && slots[i].Mark? && (t == END || BeginsItem(t))
    ensures |Path(r)| == |Rhs(r)| && 0 <= PathState(r, i) < 63 && SlotEnters(PathState(r, i), slots[i], Path(r)[i], t)
  {
    hide Action, Goto, Rhs, Path, Simple;
    Places(r, i);
    MarkMoves(t);
    ShiftsOfMarks();
  }

  lemma SlotOnPath(r: int, slots: seq<Slot>, i: nat, t: int)
    requires Simple(r) && Fills(slots, r) && i < |slots| && Ends(r, t)
    ensures |Path(r)| == |Rhs(r)| && 0 <= PathState(r, i) < 63 && 0 <= TokenAfter(slots, i, t) < YYNTOKENS
    ensures SlotEnters(PathState(r, i), slots[i], Path(r)[i], TokenAfter(slots, i, t))
  {
    hide Rhs, Path, Simple, SlotEnters, Goto;
    EndOfRule(r, t);
    TokenAfterIsToken(slots, r, i, t);
    match slots[i]
    case Word(_) => WordSlotEnters(r, slots, i, TokenAfter(slots, i, t));
    case Numeral(_) => NumeralSlotEnters(r, slots, i, TokenAfter(slots, i, t));
    case Mark(_) => Places(r, i); MarkSlotEnters(r, slots, i, t);
  }

  lemma TokenAfterIsToken(slots: seq<Slot>, r: int, i: nat, t: int)
    requires Fills(slots, r) && i < |slots| && 0 <= t < YYNTOKENS
    ensures 0 <= TokenAfter(slots, i, t) < YYNTOKENS
  {
    hide Rhs;
  }

  // The lexemes of slot i stand after those of the slots before it.
  lemma {:induction false} SlotIsHeld(input: seq<Lexeme>, n: nat, slots: seq<Slot>, i: nat)
    requires Holds(input, n, LexemesOf(slots)) && i < |slots|
    ensures Holds(input, n + |LexemesOf(slots[..i])|, SlotLexemes(slots[i]))
    ensures LexemesOf(slots[..i + 1]) == LexemesOf(slots[..i]) + SlotLexemes(slots[i])
    decreases |slots|
  {
    hide Holds, SlotLexemes;
    var m := |slots| - 1;
    assert slots[..i + 1][..i] == slots[..i];
    HoldsInParts(input, n, LexemesOf(slots[..m]), SlotLexemes(slots[m]));
    if i < m {
      assert slots[..m][..i] == slots[..i];
      SlotIsHeld(input, n, slots[..m], i);
    }
  }

  lemma HoldsInParts(input: seq<Lexeme>, n: nat, a: seq<Lexeme>, b: seq<Lexeme>)
    requires Holds(input, n, a + b)
    ensures Holds(input, n, a) && Holds(input, n + |a|, b)
  {
    forall j | 0 <= j < |a| ensures input[n + j] == a[j] {
      assert input[n + j] == (a + b)[j];
    }
    forall j | 0 <= j < |b| ensures input[n + |a| + j] == b[j] {
      assert input[n + (|a| + j)] == (a + b)[|a| + j];
    }
  }

  lemma TreesSnoc(slots: seq<Slot>, i: nat)
    requires i < |slots|
    ensures Trees(slots[..i + 1]) == Trees(slots[..i]) + [SlotTree(slots[i])]
  {
    assert slots[..i + 1][..i] == slots[..i];
  }

  // The token after slot i is the next one of the input.
  lemma NextAfterSlot(input: seq<Lexeme>, n: nat, r: int, slots: seq<Slot>, i: nat, t: int)
    requires Fills(slots, r) && Holds(input, n, LexemesOf(slots)) && i < |slots| && !slots[i].Word?
    requires Next(input, n + |LexemesOf(slots)|, t)
    requires i + 1 < |slots| && slots[i + 1].Word? ==> slots[i + 1].x.Fixed?
    requires slots[i].Mark? ==> i + 1 == |slots|
    requires i + 1 < |slots| && slots[i + 1].Mark? ==> i + 2 == |slots|
    ensures Next(input, n + |LexemesOf(slots[..i + 1])|, TokenAfter(slots, i, t))
  {
    hide Rhs, LexemesOf;
    assert slots[..|slots|] == slots;
    if i + 1 < |slots| {
      SlotIsHeld(input, n, slots, i + 1);
      NextIsHeld(input, n + |LexemesOf(slots[..i + 1])|, slots[i + 1], t);
      assert |slots| == i + 2 ==> slots[..i + 2] == slots;
    }
  }

  lemma NextIsHeld(input: seq<Lexeme>, k: nat, slot: Slot, t: int)
    requires Holds(input, k, SlotLexemes(slot)) && SlotIsSound(slot) && (slot.Word? ==> slot.x.Fixed?)
    ensures SlotLexemes(slot) != [] ==>
              Next(input, k, if slot.Mark? then MERIDIAN else Tok(slot.x).sym)
  {
    if SlotLexemes(slot) != [] {
      assert input[k + 0] == SlotLexemes(slot)[0];
    }
  }

  lemma LetterTPlace(r: int, slots: seq<Slot>, i: nat)
    requires Simple(r) && Fills(slots, r) && i < |slots| && slots[i] == Word(LetterT)
    ensures r == 26 && i == 3 && slots[2].Word? && PathState(r, i) == 49
  {
    hide Path, Simple;
    SeparatorPlace(r, i);
    RowsOfDates();
    assert SlotSym(slots[2]) == SNUMBER;
  }

  lemma SeparatorPlace(r: int, i: nat)
    requires Simple(r) && i < |Rhs(r)| && Rhs(r)[i] == RFC3339
    ensures r == 26 && i == 3
  {
  }

  lemma NoMarkBeforeEnd(r: int, slots: seq<Slot>, i: nat)
    requires Simple(r) && Fills(slots, r) && i < |slots| && slots[i].Mark?
    ensures i + 1 == |slots|
  {
    hide Path, Rhs, Simple;
    Places(r, i);
  }

  lemma SlotTreesAreSound(slots: seq<Slot>, r: int)
    requires Fills(slots, r)
    ensures forall i :: 0 <= i < |slots| ==> WellFormed(SlotTree(slots[i])) && Silent(SlotSym(slots[i]))
    ensures forall i :: 0 <= i < |slots| ==> Root(SlotTree(slots[i])) == SlotSym(slots[i])
  {
    hide Rhs;
    forall i | 0 <= i < |slots|
      ensures WellFormed(SlotTree(slots[i])) && Silent(SlotSym(slots[i]))
      ensures Root(SlotTree(slots[i])) == SlotSym(slots[i])
    {
      SlotTreeIsSound(slots[i]);
    }
  }

  lemma SlotTreeIsSound(s: Slot)
    requires SlotIsSound(s)
    ensures WellFormed(SlotTree(s)) && Silent(SlotSym(s)) && Root(SlotTree(s)) == SlotSym(s)
  {
    assert Rhs(44) == [UNUMBER] && Rhs(45) == [U4DIGIT] && Rhs(46) == [U6DIGIT];
    assert Rhs(50) == [] && Rhs(51) == [MERIDIAN];
  }

  // The record does not change before the rule is complete.
  lemma SlotsChangeNothing(src: Source, c: Config, d: Config, below: seq<Tree>, slots: seq<Slot>, r: int, i: nat)
    requires Fills(slots, r) && i <= |slots| && c.vars == EffectAll(below, src.vars, src.order)
    requires d.vars == EffectAll(below + Trees(slots[..i]), src.vars, src.order)
    ensures d.vars == c.vars
  {
    hide Rhs, WellFormed;
    SlotTreesAreSound(slots, r);
    EffectAllConcat(below, Trees(slots[..i]), src.vars, src.order);
    SilentAllHaveNoEffect(Trees(slots[..i]), c.vars, src.order);
  }

  lemma ReachedVars(src: Source, c: Config, states: seq<int>, trees: seq<Tree>, n: nat)
    requires Reached(src, c, states, trees, n)
    ensures c.vars == EffectAll(trees, src.vars, src.order)
  {
    hide Run, Parse, Linked, Labelled;
  }

  lemma {:induction false} ReadSlots(src: Source, c: Config, below: seq<Tree>, n: nat, r: int, slots: seq<Slot>, i: nat,
                                     t: int) returns (d: Config)
    requires Reached(src, c, [0, 1], below, n) && Simple(r) && Fills(slots, r) && i <= |slots|
    requires Holds(src.input, n, LexemesOf(slots)) && Ends(r, t) && Next(src.input, n + |LexemesOf(slots)|, t)
    requires r == 26 ==> c.vars.haveTime == 0
    ensures |Path(r)| == |Rhs(r)|
    ensures Reached(src, d, [0, 1] + Path(r)[..i], below + Trees(slots[..i]), n + |LexemesOf(slots[..i])|)
    ensures i > 0 && slots[i - 1].Word? ==> d.look == None
    decreases i
  {
    hide Reached, Action, Goto, Rhs, Path, Simple, SlotEnters, Next, Holds, Ends, SlotIsSound;
    PathLength(r);
    if i == 0 {
      assert below + [] == below && [0, 1] + Path(r)[..0] == [0, 1];
      d := c;
    } else {
      var e := ReadSlots(src, c, below, n, r, slots, i - 1, t);
      d := ReadSlotOnPath(src, c, e, below, n, r, slots, i - 1, t);
    }
  }

  lemma ReadSlotOnPath(src: Source, c: Config, e: Config, below: seq<Tree>, n: nat, r: int, slots: seq<Slot>, i: nat,
                       t: int) returns (d: Config)
    requires Reached(src, c, [0, 1], below, n) && Simple(r) && Fills(slots, r) && i < |slots|
    requires Holds(src.input, n, LexemesOf(slots)) && Ends(r, t) && Next(src.input, n + |LexemesOf(slots)|, t)
    requires (r == 26 ==> c.vars.haveTime == 0) && |Path(r)| == |Rhs(r)|
    requires Reached(src, e, [0, 1] + Path(r)[..i], below + Trees(slots[..i]), n + |LexemesOf(slots[..i])|)
    requires i > 0 && slots[i - 1].Word? ==> e.look == None
    ensures Reached(src, d, [0, 1] + Path(r)[..i + 1], below + Trees(slots[..i + 1]), n + |LexemesOf(slots[..i + 1])|)
    ensures slots[i].Word? ==> d.look == None
  {
    hide Reached, Action, Goto, Rhs, Path, Simple, SlotEnters, Next, Holds, Ends, EffectAll;
    SlotOnPath(r, slots, i, t);
    SlotIsHeld(src.input, n, slots, i);
    TreesSnoc(slots, i);
    TopOfPath(r, i);
    SlotSeparates(src, c, e, below, n, r, slots, i);
    if !slots[i].Word? {
      SlotsAround(r, slots, i);
      NextAfterSlot(src.input, n, r, slots, i, t);
    }
    hide SlotIsSound, LexemesOf, Trees, SlotTree, SlotLexemes, TokenAfter, PathState, SeparatesAt, Fills;
    SlotOfFilled(slots, r, i);
    var base := [0, 1] + Path(r)[..i];
    d := ReadSlot(src, e, base, below + Trees(slots[..i]), n + |LexemesOf(slots[..i])|, slots[i], Path(r)[i],
                  TokenAfter(slots, i, t));
    assert base + [Path(r)[i]] == [0, 1] + Path(r)[..i + 1];
    assert (below + Trees(slots[..i])) + [SlotTree(slots[i])] == below + Trees(slots[..i + 1]);
  }

  lemma SlotOfFilled(slots: seq<Slot>, r: int, i: nat)
    requires Fills(slots, r) && i < |slots|
    ensures SlotIsSound(slots[i])
  {
  }

  lemma SlotSeparates(src: Source, c: Config, e: Config, below: seq<Tree>, n: nat, r: int, slots: seq<Slot>, i: nat)
    requires Reached(src, c, [0, 1], below, n) && Simple(r) && Fills(slots, r) && i < |slots|
    requires (r == 26 ==> c.vars.haveTime == 0) && i <= |Path(r)|
    requires Reached(src, e, [0, 1] + Path(r)[..i], below + Trees(slots[..i]), n + |LexemesOf(slots[..i])|)
    requires i > 0 && slots[i - 1].Word? ==> e.look == None
    ensures SeparatesAt(e, PathState(r, i), slots[i])
  {
    hide Reached, Action, Goto, Rhs, Path, Simple, EffectAll;
    if slots[i] == Word(LetterT) {
      LetterTPlace(r, slots, i);
      ReachedVars(src, c, [0, 1], below, n);
      ReachedVars(src, e, [0, 1] + Path(r)[..i], below + Trees(slots[..i]), n + |LexemesOf(slots[..i])|);
      SlotsChangeNothing(src, c, e, below, slots, r, i);
    }
  }

  lemma TopOfPath(r: int, i: nat)
    requires i <= |Path(r)|
    ensures var base := [0, 1] + Path(r)[..i]; base[|base| - 1] == PathState(r, i)
  {
    hide Path;
  }

  lemma SlotsAround(r: int, slots: seq<Slot>, i: nat)
    requires Simple(r) && Fills(slots, r) && i < |slots| && !slots[i].Word?
    ensures i + 1 < |slots| && slots[i + 1].Word? ==> slots[i + 1].x.Fixed?
    ensures slots[i].Mark? ==> i + 1 == |slots|
    ensures i + 1 < |slots| && slots[i + 1].Mark? ==> i + 2 == |slots|
  {
    hide Simple, Fills;
    if slots[i].Mark? {
      NoMarkBeforeEnd(r, slots, i);
    }
    if i + 1 < |slots| && slots[i + 1].Mark? {
      NoMarkBeforeEnd(r, slots, i + 1);
    }
    if i + 1 < |slots| && slots[i + 1] == Word(LetterT) {
      LetterTPlace(r, slots, i + 1);
    }
  }

  // ----- Reading an item -----

  // A rule with what fills it and, for relative parts, whether they are turned around
  datatype Shape = Shape(rule: int, slots: seq<Slot>, ago: bool)

  predicate ShapeIsSound(p: Shape) {
    Simple(p.rule) && Fills(p.slots, p.rule) && (p.ago ==> 35 <= p.rule <= 43)
  }

  const AGO_WORD := Fixed(AGO + 255, Number(1))

  function ShapeLexemes(p: Shape): seq<Lexeme> {
    LexemesOf(p.slots) + if p.ago then [AGO_WORD] else []
  }

  // The kind of item that a rule makes
  function ItemRule(r: int): int {
    if r <= 16 then 4 else if r <= 20 then 5 else if r <= 23 then 7 else if r <= 32 then 6 else if r <= 43 then 8 else 9
  }

  function PartTree(p: Shape): Tree {
    var part := Node(p.rule, Trees(p.slots));
    if ItemRule(p.rule) != 8 then part
    else if p.ago then Node(33, [part, Leaf(Tok(AGO_WORD))])
    else Node(34, [part])
  }

  function ItemTree(p: Shape): Tree {
    Node(ItemRule(p.rule), [PartTree(p)])
  }

  // The state a complete part leads to
  function PartState(k: int): int {
    match k
    case 4 => 17 case 5 => 18 case 6 => 20 case 7 => 19 case 8 => 21 case _ => 24
  }

  lemma PartGotos()
    ensures Goto(1, TIME) == 17 && Goto(1, ZONE_ITEM) == 18 && Goto(1, DAY_ITEM) == 19 && Goto(1, DATE) == 20
    ensures Goto(1, REL) == 21 && Goto(1, RELUNIT) == 22 && Goto(1, NUMBER) == 24 && Goto(1, ITEM) == 16
    ensures Goto(0, SPEC) == 1
  {
  }

  lemma PartsEnd()
    ensures AlwaysReduces(0, 2) && AlwaysReduces(16, 3) && AlwaysReduces(17, 4) && AlwaysReduces(18, 5)
    ensures AlwaysReduces(20, 6) && AlwaysReduces(19, 7) && AlwaysReduces(21, 8) && AlwaysReduces(24, 9)
  {
  }

  lemma PartRules()
    ensures Yyr1(2) == Yyr1(3) == SPEC && Yyr1(33) == Yyr1(34) == REL && |Rhs(2)| == 0 && |Rhs(3)| == 2
    ensures |Rhs(33)| == 2 && |Rhs(34)| == 1
  {
  }

  lemma ItemRules(k: int)
    requires 4 <= k <= 9
    ensures Yyr1(k) == ITEM && |Rhs(k)| == 1
  {
  }

  lemma PartOfRule(r: int)
    requires Simple(r)
    ensures 2 <= r < 52 && SPEC <= Yyr1(r) < 37 && 4 <= ItemRule(r) <= 9
    ensures Goto(1, Yyr1(r)) == if ItemRule(r) == 8 then 22 else PartState(ItemRule(r))
  {
    hide Goto;
    PartGotos();
  }

  // A complete part is made an item, and the item is added to those before it.
  lemma CloseItem(src: Source, c: Config, spec: Tree, part: Tree, n: nat, k: int) returns (d: Config)
    requires 4 <= k <= 9 && Reached(src, c, [0, 1, PartState(k)], [spec, part], n)
    ensures Reached(src, d, [0, 1], [Node(3, [spec, Node(k, [part])])], n)
  {
    hide Reached, Action, Goto, Rhs, Yyr1, AlwaysReduces;
    PartGotos();
    PartsEnd();
    PartRules();
    ItemRules(k);
    var s := PartState(k);
    AlwaysReducesOn(s, k, END);
    AlwaysReducesOn(16, 3, END);
    NeedsNoToken(s, k);
    NeedsNoToken(16, 3);
    assert [0, 1] + [s] == [0, 1, s] && [spec] + [part] == [spec, part];
    var e := ReduceStep(src, c, [0, 1], [s], [spec], [part], n, END, k, 16);
    var item := Node(k, [part]);
    assert [0, 1] + [16] == [0] + [1, 16] && [spec] + [item] == [] + [spec, item];
    d := ReduceStep(src, e, [0], [1, 16], [], [spec, item], n, END, 3, 1);
    assert [0] + [1] == [0, 1] && [] + [Node(3, [spec, item])] == [Node(3, [spec, item])];
  }

  lemma NeedsNoToken(s: int, r: int)
    requires 0 <= s < 63 && AlwaysReduces(s, r)
    ensures Yypact(s) == YYPACT_NINF
  {
  }

  // The slots of a rule become its tree.
  lemma ReadPart(src: Source, c: Config, spec: Tree, n: nat, p: Shape, t: int) returns (d: Config)
    requires Reached(src, c, [0, 1], [spec], n) && ShapeIsSound(p) && Ends(p.rule, t)
    requires Holds(src.input, n, LexemesOf(p.slots)) && Next(src.input, n + |LexemesOf(p.slots)|, t)
    requires p.rule == 26 ==> c.vars.haveTime == 0
    ensures 4 <= ItemRule(p.rule) <= 9
    ensures Reached(src, d, [0, 1, if ItemRule(p.rule) == 8 then 22 else PartState(ItemRule(p.rule))],
                    [spec, Node(p.rule, Trees(p.slots))], n + |LexemesOf(p.slots)|)
  {
    hide Reached, Action, Goto, Rhs, Yyr1, Path, Simple, Holds, Next, Ends;
    var r, m := p.rule, n + |LexemesOf(p.slots)|;
    EndOfRule(r, t);
    PartOfRule(r);
    var e := ReadSlots(src, c, [spec], n, r, p.slots, |p.slots|, t);
    assert Path(r)[..|p.slots|] == Path(r) && p.slots[..|p.slots|] == p.slots;
    TopOfPath(r, |p.slots|);
    d := ReduceStep(src, e, [0, 1], Path(r), [spec], Trees(p.slots), m, t, r, Goto(1, Yyr1(r)));
    assert [0, 1] + [Goto(1, Yyr1(r))] == [0, 1, Goto(1, Yyr1(r))];
    assert [spec] + [Node(r, Trees(p.slots))] == [spec, Node(r, Trees(p.slots))];
  }

  lemma TurnAround(src: Source, c: Config, spec: Tree, part: Tree, n: nat) returns (d: Config)
    requires Reached(src, c, [0, 1, 22], [spec, part], n) && Holds(src.input, n, [AGO_WORD])
    ensures Reached(src, d, [0, 1, 21], [spec, Node(33, [part, Leaf(Tok(AGO_WORD))])], n + 1)
  {
    hide Reached, Action, Goto, Rhs, Yyr1, AlwaysReduces;
    ShiftsAfterFirstToken();
    UnitsEnd(END);
    AlwaysReducesOn(37, 33, END);
    NeedsNoToken(37, 33);
    PartRules();
    PartGotos();
    assert src.input[n + 0] == [AGO_WORD][0];
    var word := Leaf(Tok(AGO_WORD));
    var e := ShiftStep(src, c, [0, 1, 22], [spec, part], n, AGO, 37);
    assert [0, 1, 22] + [37] == [0, 1] + [22, 37] && [spec, part] + [word] == [spec] + [part, word];
    d := ReduceStep(src, e, [0, 1], [22, 37], [spec], [part, word], n + 1, END, 33, 21);
    assert [0, 1] + [21] == [0, 1, 21] && [spec] + [Node(33, [part, word])] == [spec, Node(33, [part, word])];
  }

  lemma GoAhead(src: Source, c: Config, spec: Tree, part: Tree, n: nat, t: int) returns (d: Config)
    requires Reached(src, c, [0, 1, 22], [spec, part], n) && Next(src.input, n, t) && (t == END || BeginsItem(t))
    ensures Reached(src, d, [0, 1, 21], [spec, Node(34, [part])], n)
  {
    hide Reached, Action, Goto, Rhs, Yyr1, AlwaysReduces, Next;
    UnitsEnd(t);
    PartRules();
    PartGotos();
    assert [0, 1] + [22] == [0, 1, 22] && [spec] + [part] == [spec, part];
    d := ReduceStep(src, c, [0, 1], [22], [spec], [part], n, t, 34, 21);
    assert [0, 1] + [21] == [0, 1, 21] && [spec] + [Node(34, [part])] == [spec, Node(34, [part])];
  }

  /**
   Between items, the lexemes of any item, in front of a token that may follow it, are read as that item.
   */
  lemma ReadItem(src: Source, c: Config, spec: Tree, n: nat, p: Shape, t: int) returns (d: Config)
    requires Reached(src, c, [0, 1], [spec], n) && ShapeIsSound(p) && MayFollow(p.rule, t)
    requires Holds(src.input, n, ShapeLexemes(p)) && Next(src.input, n + |ShapeLexemes(p)|, t)
    requires p.rule == 26 ==> c.vars.haveTime == 0
    ensures Reached(src, d, [0, 1], [Node(3, [spec, ItemTree(p)])], n + |ShapeLexemes(p)|)
  {
    hide Reached, Simple, Fills, Next, MayFollow;
    var m, part := n + |LexemesOf(p.slots)|, Node(p.rule, Trees(p.slots));
    HeldInParts(src.input, n, p);
    if p.ago {
      AgoFollows(src.input, m, p.rule);
      var e := ReadPart(src, c, spec, n, p, AGO);
      e := TurnAround(src, e, spec, part, m);
      d := CloseItem(src, e, spec, PartTree(p), m + 1, 8);
    } else {
      var e := ReadPart(src, c, spec, n, p, t);
      if ItemRule(p.rule) == 8 {
        BeginsOrEnds(p.rule, t);
        e := GoAhead(src, e, spec, part, m, t);
      }
      d := CloseItem(src, e, spec, PartTree(p), m, ItemRule(p.rule));
    }
  }

  lemma HeldInParts(input: seq<Lexeme>, n: nat, p: Shape)
    requires Holds(input, n, ShapeLexemes(p))
    ensures Holds(input, n, LexemesOf(p.slots)) && (p.ago ==> Holds(input, n + |LexemesOf(p.slots)|, [AGO_WORD]))
  {
    HoldsInParts(input, n, LexemesOf(p.slots), if p.ago then [AGO_WORD] else []);
  }

  lemma AgoFollows(input: seq<Lexeme>, m: nat, r: int)
    requires Holds(input, m, [AGO_WORD]) && 35 <= r <= 43
    ensures Next(input, m, AGO) && Ends(r, AGO)
  {
    assert input[m + 0] == [AGO_WORD][0];
  }

  lemma BeginsOrEnds(r: int, t: int)
    requires MayFollow(r, t)
    ensures t == END || BeginsItem(t)
  {
  }

  // Before the first item
  lemma StartBetweenItems(src: Source) returns (d: Config)
    requires LexerOutput(src.input)
    ensures Reached(src, d, [0, 1], [Node(2, [])], 0) && d.vars == src.vars
  {
    StartReached(src);
    hide Reached, Action, Goto, Rhs, Yyr1, AlwaysReduces;
    PartsEnd();
    PartGotos();
    PartRules();
    AlwaysReducesOn(0, 2, END);
    NeedsNoToken(0, 2);
    var none: seq<Tree> := [];
    assert [0] + [] == [0] && none + [] == [];
    d := ReduceStep(src, Start(src.vars), [0], [], [], [], 0, END, 2, 1);
    assert [0] + [1] == [0, 1] && none + [Node(2, [])] == [Node(2, [])];
    ReachedVars(src, d, [0, 1], [Node(2, [])], 0);
    EffectOfNothing(src.vars, src.order);
  }

  lemma StartReached(src: Source)
    requires LexerOutput(src.input)
    ensures Reached(src, Start(src.vars), [0], [], 0)
  {
    hide Act;
    StartIsConsistent(src.input, src.order, src.vars);
  }

  lemma EffectOfNothing(v: Vars, order: int)
    ensures EffectAll([Node(2, [])], v, order) == v
  {
    assert Rhs(2) == [];
    PassThrough(2, [], v, order);
    EffectAllOne(Node(2, []), v, order);
    assert Vals([]) == [];
  }

  // At the end of the input, between items, the parse accepts.
  lemma EndIsAccepted(src: Source, c: Config, spec: Tree)
    requires Reached(src, c, [0, 1], [spec], |src.input|)
    ensures var o := Parse(src.input, src.order, src.vars);
            o.Accepted? && o.at.trees == [spec, Leaf(EOF)] && o.at.vars == c.vars
  {
    hide Act, Action, Yypact, EffectAll, YieldAll, Linked, Labelled, Parse;
    EndIsShifted();
    NextIsFetched(src.input, src.order, src.vars, c, END);
    RunShifts(src.input, src.order, src.vars, c, YYFINAL);
    var d := Push(Fetch(src.input, c), YYFINAL);
    assert d.Top() == YYFINAL;
  }

  lemma EndIsShifted()
    ensures Yypact(1) != YYPACT_NINF && Action(1, END) == Shift(YYFINAL)
  {
  }

  // ----- Reading a list of items -----

  function LexemesOfAll(ps: seq<Shape>): seq<Lexeme> {
    if ps == [] then [] else LexemesOfAll(ps[..|ps| - 1]) + ShapeLexemes(ps[|ps| - 1])
  }

  function ItemTrees(ps: seq<Shape>): (ts: seq<Tree>)
    ensures |ts| == |ps| && forall i :: 0 <= i < |ps| ==> ts[i] == ItemTree(ps[i])
  {
    if ps == [] then [] else ItemTrees(ps[..|ps| - 1]) + [ItemTree(ps[|ps| - 1])]
  }

  function SpecOf(items: seq<Tree>): Tree {
    if items == [] then Node(2, []) else Node(3, [SpecOf(items[..|items| - 1]), items[|items| - 1]])
  }

  // The symbol of the first token of an item; an item is never empty.
  function FirstSym(p: Shape): int {
    if p.slots != [] && !p.slots[0].Mark? then Tok(p.slots[0].x).sym else UNDEFINED
  }

  // The token after item i
  function SymAfter(ps: seq<Shape>, i: nat): int {
    if i + 1 < |ps| then FirstSym(ps[i + 1]) else END
  }

  // No item is cut short or drawn out by the next one, and a T after a date comes before any time.
  ghost predicate Readable(ps: seq<Shape>, v: Vars, order: int) {
    forall i :: 0 <= i < |ps| ==>
      && ShapeIsSound(ps[i]) && MayFollow(ps[i].rule, SymAfter(ps, i))
      && (ps[i].rule == 26 ==> EffectAll(ItemTrees(ps[..i]), v, order).haveTime == 0)
  }

  lemma {:induction false} ItemIsHeld(ps: seq<Shape>, i: nat)
    requires i < |ps|
    ensures Holds(LexemesOfAll(ps), |LexemesOfAll(ps[..i])|, ShapeLexemes(ps[i]))
    ensures LexemesOfAll(ps[..i + 1]) == LexemesOfAll(ps[..i]) + ShapeLexemes(ps[i])
    ensures LexemesOfAll(ps[..i + 1]) <= LexemesOfAll(ps)
    decreases |ps|
  {
    hide ShapeLexemes;
    var m := |ps| - 1;
    assert ps[..i + 1][..i] == ps[..i];
    if i == m {
      assert ps[..i + 1] == ps;
    } else {
      ItemIsHeld(ps[..m], i);
      assert ps[..m][..i] == ps[..i] && ps[..m][..i + 1] == ps[..i + 1];
      var xs, k := ShapeLexemes(ps[i]), |LexemesOfAll(ps[..i])|;
      forall j | 0 <= j < |xs| ensures LexemesOfAll(ps)[k + j] == xs[j] {
        assert LexemesOfAll(ps[..m])[k + j] == xs[j];
      }
    }
  }

  lemma FirstLexeme(p: Shape)
    requires ShapeIsSound(p)
    ensures ShapeLexemes(p) != [] && ShapeLexemes(p)[0].Fixed? && Tok(ShapeLexemes(p)[0]).sym == FirstSym(p)
  {
    hide Simple, Path, Rhs;
    PathLength(p.rule);
    Places(p.rule, 0);
    hide Placed;
    FirstIsNoMark(p.rule);
    if p.slots[0] == Word(LetterT) {
      LetterTPlace(p.rule, p.slots, 0);
    }
    FirstOfSlots(p.slots);
  }

  lemma FirstIsNoMark(r: int)
    requires Simple(r)
    ensures |Rhs(r)| > 0 && Rhs(r)[0] != O_MERID
  {
  }

  lemma {:induction false} FirstOfSlots(slots: seq<Slot>)
    requires slots != [] && !slots[0].Mark?
    ensures LexemesOf(slots) != [] && LexemesOf(slots)[0] == slots[0].x
    decreases |slots|
  {
    if |slots| > 1 {
      FirstOfSlots(slots[..|slots| - 1]);
    } else {
      assert LexemesOf(slots[..0]) == [];
    }
  }

  lemma NextAfterItem(ps: seq<Shape>, i: nat)
    requires i < |ps| && forall j :: 0 <= j < |ps| ==> ShapeIsSound(ps[j])
    ensures Next(LexemesOfAll(ps), |LexemesOfAll(ps[..i + 1])|, SymAfter(ps, i))
  {
    hide ShapeIsSound, ShapeLexemes, FirstSym;
    if i + 1 < |ps| {
      ItemIsHeld(ps, i + 1);
      FirstLexeme(ps[i + 1]);
      var xs, k := ShapeLexemes(ps[i + 1]), |LexemesOfAll(ps[..i + 1])|;
      assert LexemesOfAll(ps)[k + 0] == xs[0];
    } else {
      assert ps[..i + 1] == ps;
    }
  }

  lemma {:induction false} SpecOfFolds(items: seq<Tree>, v: Vars, order: int)
    ensures Items(SpecOf(items)) == items && EffectAll([SpecOf(items)], v, order) == EffectAll(items, v, order)
    decreases |items|
  {
    if items == [] {
      EffectOfNothing(v, order);
    } else {
      var init, last := items[..|items| - 1], items[|items| - 1];
      SpecOfFolds(init, v, order);
      EffectAllOne(SpecOf(items), v, order);
      EffectAllOne(SpecOf(init), v, order);
      assert Rhs(3) == [SPEC, ITEM];
      EffectOfPair(3, SpecOf(init), last, v, order);
      PassThrough(3, [Val(SpecOf(init)), Val(last)], Effect(last, Effect(SpecOf(init), v, order), order), order);
      assert Items(SpecOf(items)) == init + [last];
    }
  }

  lemma {:induction false} ReadItems(src: Source, ps: seq<Shape>, i: nat) returns (d: Config)
    requires LexerOutput(src.input) && src.input == LexemesOfAll(ps) && i <= |ps|
    requires Readable(ps, src.vars, src.order)
    ensures Reached(src, d, [0, 1], [SpecOf(ItemTrees(ps[..i]))], |LexemesOfAll(ps[..i])|)
    decreases i
  {
    hide Reached, Readable, LexerOutput;
    if i == 0 {
      d := StartBetweenItems(src);
    } else {
      var c := ReadItems(src, ps, i - 1);
      d := ReadNextItem(src, c, ps, i - 1);
    }
  }

  lemma ReadNextItem(src: Source, c: Config, ps: seq<Shape>, i: nat) returns (d: Config)
    requires src.input == LexemesOfAll(ps) && i < |ps| && Readable(ps, src.vars, src.order)
    requires Reached(src, c, [0, 1], [SpecOf(ItemTrees(ps[..i]))], |LexemesOfAll(ps[..i])|)
    ensures Reached(src, d, [0, 1], [SpecOf(ItemTrees(ps[..i + 1]))], |LexemesOfAll(ps[..i + 1])|)
  {
    hide Reached, ShapeIsSound, MayFollow, Next, ShapeLexemes, ItemTree, Holds, LexemesOfAll, SymAfter, EffectAll;
    var spec, n := SpecOf(ItemTrees(ps[..i])), |LexemesOfAll(ps[..i])|;
    ItemIsHeld(ps, i);
    NextAfterItem(ps, i);
    ReachedVars(src, c, [0, 1], [spec], n);
    SpecOfFolds(ItemTrees(ps[..i]), src.vars, src.order);
    d := ReadItem(src, c, spec, n, ps[i], SymAfter(ps, i));
    assert ps[..i + 1][..i] == ps[..i];
    SpecGrows(ItemTrees(ps[..i]), ItemTree(ps[i]));
  }

  lemma SpecGrows(items: seq<Tree>, item: Tree)
    ensures SpecOf(items + [item]) == Node(3, [SpecOf(items), item])
  {
    assert (items + [item])[..|items|] == items;
  }

  /**
   Every list of items that do not disturb each other is accepted, is read as those items, and has their effect.
   */
  lemma ItemsAreAccepted(src: Source, ps: seq<Shape>)
    requires LexerOutput(src.input) && src.input == LexemesOfAll(ps) && Readable(ps, src.vars, src.order)
    ensures var o := Parse(src.input, src.order, src.vars);
            && o.Accepted? && o.at.trees == [SpecOf(ItemTrees(ps)), Leaf(EOF)]
            && Items(SpecOf(ItemTrees(ps))) == ItemTrees(ps)
            && o.at.vars == EffectAll(ItemTrees(ps), src.vars, src.order)
  {
    hide Reached, Readable, Parse, LexerOutput;
    var d := ReadItems(src, ps, |ps|);
    assert ps[..|ps|] == ps;
    var spec := SpecOf(ItemTrees(ps));
    ReachedVars(src, d, [0, 1], [spec], |src.input|);
    SpecOfFolds(ItemTrees(ps), src.vars, src.order);
    EndIsAccepted(src, d, spec);
  }
}
