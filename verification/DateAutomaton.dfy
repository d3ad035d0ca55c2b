/**
 The automaton the tables encode: what a state does on a token, where a reduction goes, and which stacks of
 states can arise.  The lemmas relate the packed tables to the grammar's rules.
 */
module DateAutomaton {
  import opened DateTables

  datatype Move = Shift(state: int) | Reduce(rule: int) | SyntaxError

  function DefaultMove(s: int): Move
    requires 0 <= s < 63
  {
    if Yydefact(s) == 0 then SyntaxError else Reduce(Yydefact(s))
  }

  // The decision made at yybackup for a state and a lookahead token
  function Action(s: int, t: int): Move
    requires 0 <= s < 63 && 0 <= t < YYNTOKENS
  {
    if Yypact(s) == YYPACT_NINF then DefaultMove(s) else
    var n := Yypact(s) + t;
    if n < 0 || YYLAST < n || Yycheck(n) != t then DefaultMove(s)
    else if Yytable(n) <= 0 then Reduce(-Yytable(n))
    else Shift(Yytable(n))
  }

  // The state entered after reducing to x on top of state s
  function Goto(s: int, x: int): int
    requires 0 <= s < 63 && YYNTOKENS <= x < 37
  {
    var n := Yypgoto(x - YYNTOKENS) + s;
    if 0 <= n <= YYLAST && Yycheck(n) == s then Yytable(n) else Yydefgoto(x - YYNTOKENS)
  }

  // States in which a number is still to come
  predicate NumberExpected(p: int) {
    p == 6 || p == 40 || p == 44 || p == 45 || p == 46 || p == 56 || p == 58
  }

  // State q can lie directly on top of state p.
  predicate Edge(p: int, q: int) {
    if q == 1 then p == 0
    else if q <= 24 then 2 <= q && p == 1
    else if 26 <= q <= 28 then NumberExpected(p)
    else if 38 <= q <= 45 then p == 23
    else
      match q
      case 25 => p == 3
      case 29 => p == 6
      case 30 => p == 8 case 31 => p == 8 case 32 => p == 8
      case 33 => p == 9 case 34 => p == 10 case 35 => p == 11
      case 36 => p == 14 case 37 => p == 22
      case 46 => p == 29
      case 47 => p == 40 case 48 => p == 40
      case 49 => p == 42
      case 50 => p == 44 case 51 => p == 45 case 52 => p == 46
      case 53 => p == 49
      case 54 => p == 50 || p == 59
      case 55 => p == 50 case 56 => p == 50 case 57 => p == 50
      case 58 => p == 51 case 59 => p == 56 case 60 => p == 58
      case 61 => p == 59 case 62 => p == 59
      case _ => false
  }

  // A stack of states, bottom first, in which every state can lie on the one below it
  ghost predicate Linked(ss: seq<int>) {
    && |ss| > 0
    && ss[0] == 0
    && (forall i :: 0 < i < |ss| ==> 1 <= ss[i] < 63)
    && (forall i :: 0 < i < |ss| ==> EdgeInto(ss, i))
  }

  ghost predicate EdgeInto(ss: seq<int>, i: int)
    requires 0 < i < |ss|
  {
    Edge(ss[i - 1], ss[i])
  }

  // The states that can report a syntax error
  predicate ErrorState(s: int) {
    s == 1 || s == 6 || s == 8 || s == 23 || s == 42 || 44 <= s <= 46 || s == 49 || s == 56 || s == 58
  }

  // State s can reduce by rule r on some token.
  predicate Reduces(s: int, r: int)
    requires 0 <= s < 63
  {
    && s != YYFINAL
    && 2 <= r < 52
    && (r == Yydefact(s) || (s == 9 && r == 47) || (s == 10 && r == 48) || (s == 11 && r == 49))
  }

  // The state a reduction by r uncovers
  predicate Uncovers(r: int, b: int) {
    if r <= 3 then b == 0
    else if r <= 43 || 47 <= r <= 49 then b == 1
    else if r <= 46 then b == 1 || NumberExpected(b)
    else b == 50 || b == 59
  }

  // Bounds the reductions that can follow a state before the next shift.
  function Rank(s: int): nat {
    if s == 0 || s == 16 then 1
    else if 17 <= s <= 21 || s == 24 then 2
    else if 26 <= s <= 28 then 5
    else if s == 5 || s == 7 || s == 13 || s == 39 || s == 41 || s == 43 || 30 <= s <= 32
         || s == 50 || s == 59 || s == 54 then 4
    else if s == 2 || ErrorState(s) then 0
    else 3
  }

  // How deep a state can lie in a stack
  function Depth(s: int): nat {
    if s <= 1 then (if s == 1 then 1 else 0)
    else if s <= 24 then 2
    else if 26 <= s <= 28 || s == 59 || s == 60 then 6
    else if s == 54 || s == 61 || s == 62 then 7
    else if s == 52 || s == 53 || 55 <= s <= 58 then 5
    else if 46 <= s <= 51 then 4
    else 3
  }

  // The state entered on token t fits on state s.
  predicate Enters(s: int, t: int, q: int) {
    2 <= q < 63 && Edge(s, q) && Yystos(q) == t
  }

  // What the packed tables say: a shift enters a state for the token shifted, ...
  lemma ShiftProperties(s: int, t: int)
    requires 0 <= s < 63 && 0 <= t < YYNTOKENS && s != YYFINAL && Action(s, t).Shift?
    ensures var q := Action(s, t).state; 2 <= q < 63 && Edge(s, q) && Yystos(q) == t
  {
    hide Action, Edge, Yystos;
    if s <= 1 {
      ShiftBetweenItems(s, t);
    } else if s <= 8 {
      ShiftFromItemStart(s, t);
    } else if s <= 22 {
      ShiftFromNumber(s, t);
    } else if s <= 29 {
      ShiftFromDigits(s, t);
    } else if s <= 42 {
      ShiftFromDate(s, t);
    } else if s <= 46 {
      ShiftFromMiddle(s, t);
    } else if s <= 54 {
      ShiftFromMinute(s, t);
    } else {
      ShiftFromRest(s, t);
    }
  }

  lemma ShiftBetweenItems(s: int, t: int)
    requires 0 <= s <= 1 && 0 <= t < YYNTOKENS && Action(s, t).Shift?
    ensures Enters(s, t, Action(s, t).state)
  {
  }

  lemma ShiftFromItemStart(s: int, t: int)
    requires 2 < s <= 8 && 0 <= t < YYNTOKENS && Action(s, t).Shift?
    ensures Enters(s, t, Action(s, t).state)
  {
  }

  lemma ShiftFromNumber(s: int, t: int)
    requires 8 < s <= 22 && 0 <= t < YYNTOKENS && Action(s, t).Shift?
    ensures Enters(s, t, Action(s, t).state)
  {
  }

  lemma ShiftFromDigits(s: int, t: int)
    requires 22 < s <= 29 && 0 <= t < YYNTOKENS && Action(s, t).Shift?
    ensures Enters(s, t, Action(s, t).state)
  {
  }

  lemma ShiftFromDate(s: int, t: int)
    requires 29 < s <= 42 && 0 <= t < YYNTOKENS && Action(s, t).Shift?
    ensures Enters(s, t, Action(s, t).state)
  {
  }

  lemma ShiftFromMiddle(s: int, t: int)
    requires 42 < s <= 46 && 0 <= t < YYNTOKENS && Action(s, t).Shift?
    ensures Enters(s, t, Action(s, t).state)
  {
  }

  lemma ShiftFromMinute(s: int, t: int)
    requires 46 < s <= 54 && 0 <= t < YYNTOKENS && Action(s, t).Shift?
    ensures Enters(s, t, Action(s, t).state)
  {
  }

  lemma ShiftFromRest(s: int, t: int)
    requires 54 < s < 63 && 0 <= t < YYNTOKENS && Action(s, t).Shift?
    ensures Enters(s, t, Action(s, t).state)
  {
  }

  // ... a reduction is by a rule of the grammar, ...
  lemma ReduceProperties(s: int, t: int)
    requires 0 <= s < 63 && 0 <= t < YYNTOKENS && s != YYFINAL && Action(s, t).Reduce?
    ensures Reduces(s, Action(s, t).rule)
  {
    if Action(s, t) != DefaultMove(s) {
      NonDefaultReduction(s, t);
    }
  }

  lemma NonDefaultReduction(s: int, t: int)
    requires 0 <= s < 63 && 0 <= t < YYNTOKENS && Action(s, t).Reduce? && Action(s, t) != DefaultMove(s)
    ensures 9 <= s <= 11 && Action(s, t).rule == s + 38
  {
    hide Action, DefaultMove;
    if s < 9 {
      DefaultBeforeUnits(s, t);
    } else if s <= 11 {
      ReductionOfUnit(s, t);
    } else if s < 25 {
      DefaultAfterUnits(s, t);
    } else if s < 44 {
      DefaultInDate(s, t);
    } else {
      DefaultInTail(s, t);
    }
  }

  lemma DefaultBeforeUnits(s: int, t: int)
    requires 0 <= s < 9 && 0 <= t < YYNTOKENS
    ensures Action(s, t).Reduce? ==> Action(s, t) == DefaultMove(s)
  {
  }

  // States of signed and unsigned numbers, which reduce unless a unit follows
  lemma ReductionOfUnit(s: int, t: int)
    requires 9 <= s <= 11 && 0 <= t < YYNTOKENS
    ensures Action(s, t).Reduce? && Action(s, t) != DefaultMove(s) ==> Action(s, t).rule == s + 38
  {
  }

  lemma DefaultAfterUnits(s: int, t: int)
    requires 11 < s < 25 && 0 <= t < YYNTOKENS
    ensures Action(s, t).Reduce? ==> Action(s, t) == DefaultMove(s)
  {
  }

  lemma DefaultInDate(s: int, t: int)
    requires 25 <= s < 44 && 0 <= t < YYNTOKENS
    ensures Action(s, t).Reduce? ==> Action(s, t) == DefaultMove(s)
  {
  }

  lemma DefaultInTail(s: int, t: int)
    requires 44 <= s < 63 && 0 <= t < YYNTOKENS
    ensures Action(s, t).Reduce? ==> Action(s, t) == DefaultMove(s)
  {
  }

  // ... and an error is found only between items or inside an unfinished one.
  lemma ErrorProperties(s: int, t: int)
    requires 0 <= s < 63 && 0 <= t < YYNTOKENS && s != YYFINAL && Action(s, t).SyntaxError?
    ensures ErrorState(s) && (s == 1 ==> t != END)
  {
  }

  // No table entry shifts the error token, so error recovery pops every state.
  lemma ErrorTokenNeverShifted(n: int)
    requires 0 <= n <= YYLAST
    ensures Yycheck(n) != YYTERROR
  {
  }

  lemma RuleLength(r: int)
    requires 2 <= r < 52
    ensures |Rhs(r)| == Yyr2(r)
  {
  }

  predicate Handle(ss: seq<int>, r: int)
    requires 2 <= r < 52
  {
    && |Rhs(r)| < |ss|
    && (forall i :: 0 <= i < |ss| ==> 0 <= ss[i] < 63)
    && (forall i :: 0 <= i < |Rhs(r)| ==> Yystos(ss[|ss| - |Rhs(r)| + i]) == Rhs(r)[i])
    && Uncovers(r, ss[|ss| - |Rhs(r)| - 1])
  }

  // The state at position j below the top fits on the one below it; the bottom is state 0.
  predicate LinkAt(ss: seq<int>, j: nat) {
    var n := |ss|;
    && (j + 1 < n ==> 1 <= ss[n - 1 - j] < 63 && Edge(ss[n - 2 - j], ss[n - 1 - j]))
    && (j + 1 == n ==> ss[0] == 0)
  }

  // No right-hand side has more than six symbols, so the seven states at the top and the six links between them decide.
  predicate TopLinks(ss: seq<int>) {
    && |ss| > 0 && 0 <= ss[|ss| - 1] < 63
    && LinkAt(ss, 0) && LinkAt(ss, 1) && LinkAt(ss, 2) && LinkAt(ss, 3) && LinkAt(ss, 4) && LinkAt(ss, 5)
  }

  lemma TopOfLinked(ss: seq<int>)
    requires Linked(ss)
    ensures TopLinks(ss)
  {
    TopEdges(ss);
    hide Edge;
  }

  // The symbol at position j below the top is that of the right-hand side.
  predicate SymbolAt(ss: seq<int>, rhs: seq<int>, j: nat) {
    var n, k := |ss|, |rhs|;
    j < k <= n ==> 0 <= ss[n - 1 - j] < 63 && Yystos(ss[n - 1 - j]) == rhs[k - 1 - j]
  }

  // The handle, read from the top
  predicate TopSymbols(ss: seq<int>, rhs: seq<int>) {
    && |rhs| < |ss| && |rhs| <= 6
    && SymbolAt(ss, rhs, 0) && SymbolAt(ss, rhs, 1) && SymbolAt(ss, rhs, 2) && SymbolAt(ss, rhs, 3)
    && SymbolAt(ss, rhs, 4) && SymbolAt(ss, rhs, 5)
  }

  // A handle on top, with a state below it that the reduction can uncover
  predicate TopHandle(ss: seq<int>, r: int)
    requires 2 <= r < 52
  {
    TopSymbols(ss, Rhs(r)) && Uncovers(r, ss[|ss| - |Rhs(r)| - 1])
  }

  lemma HandleOfTopSymbols(ss: seq<int>, r: int)
    requires Linked(ss) && 2 <= r < 52 && TopHandle(ss, r)
    ensures Handle(ss, r)
  {
    hide Edge, EdgeInto, Yystos, Rhs, Uncovers;
    var n, k := |ss|, |Rhs(r)|;
    forall i | 0 <= i < k ensures Yystos(ss[n - k + i]) == Rhs(r)[i] {
      var j := k - 1 - i;
      assert j == 0 || j == 1 || j == 2 || j == 3 || j == 4 || j == 5;
      assert SymbolAt(ss, Rhs(r), j);
    }
  }

  // Every reduction finds its rule's right-hand side on top of the stack and never pops past the bottom.
  lemma HandleOnTop(ss: seq<int>, r: int)
    requires Linked(ss) && Reduces(ss[|ss| - 1], r)
    ensures Handle(ss, r)
  {
    TopOfLinked(ss);
    hide TopLinks, TopHandle, Handle, Linked;
    if r <= 5 {
      SymbolsOfWrapper(ss, r);
    } else if r <= 9 {
      SymbolsOfItem(ss, r);
    } else if r <= 11 {
      SymbolsOfHour(ss, r);
    } else if r <= 13 {
      SymbolsOfMinute(ss, r);
    } else if r <= 14 {
      SymbolsOfMinuteZone(ss, r);
    } else if r <= 16 {
      SymbolsOfSecond(ss, r);
    } else if r <= 23 {
      SymbolsOfZoneOrDay(ss, r);
    } else if r <= 24 {
      SymbolsOfSlashDate(ss, r);
    } else if r <= 25 {
      SymbolsOfSlashYear(ss, r);
    } else if r <= 27 {
      SymbolsOfDashDate(ss, r);
    } else if r <= 29 {
      SymbolsOfMonthDay(ss, r);
    } else if r <= 30 {
      SymbolsOfMonthComma(ss, r);
    } else if r <= 32 {
      SymbolsOfDayMonth(ss, r);
    } else if r <= 34 {
      SymbolsOfRel(ss, r);
    } else if r <= 43 {
      SymbolsOfRelUnit(ss, r);
    } else if r <= 46 {
      SymbolsOfDigits(ss, r);
    } else if r <= 49 {
      SymbolsOfSigned(ss, r);
    } else {
      SymbolsOfMeridian(ss, r);
    }
    HandleOfTopSymbols(ss, r);
  }

  lemma SymbolsOfWrapper(ss: seq<int>, r: int)
    requires TopLinks(ss) && Reduces(ss[|ss| - 1], r) && r <= 5
    ensures TopHandle(ss, r)
  {
  }

  lemma SymbolsOfItem(ss: seq<int>, r: int)
    requires TopLinks(ss) && Reduces(ss[|ss| - 1], r) && 5 < r <= 9
    ensures TopHandle(ss, r)
  {
  }

  lemma SymbolsOfHour(ss: seq<int>, r: int)
    requires TopLinks(ss) && Reduces(ss[|ss| - 1], r) && 10 <= r <= 11
    ensures TopHandle(ss, r)
  {
  }

  lemma SymbolsOfMinute(ss: seq<int>, r: int)
    requires TopLinks(ss) && Reduces(ss[|ss| - 1], r) && 12 <= r <= 13
    ensures TopHandle(ss, r)
  {
  }

  lemma SymbolsOfMinuteZone(ss: seq<int>, r: int)
    requires TopLinks(ss) && Reduces(ss[|ss| - 1], r) && r == 14
    ensures TopHandle(ss, r)
  {
  }

  // The states below the end of a time with seconds
  lemma TimeChain(ss: seq<int>)
    requires TopLinks(ss) && 61 <= ss[|ss| - 1] <= 62
    ensures var n := |ss|;
            && n >= 7 && ss[n - 2] == 59 && ss[n - 3] == 56 && ss[n - 4] == 50 && ss[n - 5] == 44
            && ss[n - 6] == 23 && ss[n - 7] == 1
  {
  }

  lemma SecondReducer(s: int, r: int)
    requires 0 <= s < 63 && Reduces(s, r) && 15 <= r <= 16
    ensures s == if r == 15 then 62 else 61
  {
  }

  lemma SymbolsOfSecond(ss: seq<int>, r: int)
    requires TopLinks(ss) && Reduces(ss[|ss| - 1], r) && 15 <= r <= 16
    ensures TopHandle(ss, r)
  {
    SecondReducer(ss[|ss| - 1], r);
    TimeChain(ss);
    SecondSymbols(r);
    TimeSymbols();
    hide TopLinks, LinkAt, Reduces, Edge, Rhs, Yystos;
  }

  lemma SecondSymbols(r: int)
    requires 15 <= r <= 16
    ensures Rhs(r) == [UNUMBER_NT, COLON, UNUMBER_NT, COLON, UNUMBER_NT, if r == 15 then O_MERID else S4DIGIT]
  {
  }

  lemma TimeSymbols()
    ensures Yystos(23) == Yystos(50) == Yystos(59) == UNUMBER_NT && Yystos(44) == Yystos(56) == COLON
    ensures Yystos(62) == O_MERID && Yystos(61) == S4DIGIT
  {
    NumberSymbols();
    MarkSymbols();
    hide Yystos;
  }

  lemma NumberSymbols()
    ensures Yystos(23) == Yystos(50) == Yystos(59) == UNUMBER_NT
  {
  }

  lemma MarkSymbols()
    ensures Yystos(44) == Yystos(56) == COLON && Yystos(62) == O_MERID && Yystos(61) == S4DIGIT
  {
  }

  lemma SymbolsOfZoneOrDay(ss: seq<int>, r: int)
    requires TopLinks(ss) && Reduces(ss[|ss| - 1], r) && 17 <= r <= 23
    ensures TopHandle(ss, r)
  {
  }

  lemma SymbolsOfSlashDate(ss: seq<int>, r: int)
    requires TopLinks(ss) && Reduces(ss[|ss| - 1], r) && r == 24
    ensures TopHandle(ss, r)
  {
  }

  lemma SymbolsOfSlashYear(ss: seq<int>, r: int)
    requires TopLinks(ss) && Reduces(ss[|ss| - 1], r) && r == 25
    ensures TopHandle(ss, r)
  {
  }

  lemma SymbolsOfDashDate(ss: seq<int>, r: int)
    requires TopLinks(ss) && Reduces(ss[|ss| - 1], r) && 26 <= r <= 27
    ensures TopHandle(ss, r)
  {
  }

  lemma SymbolsOfMonthDay(ss: seq<int>, r: int)
    requires TopLinks(ss) && Reduces(ss[|ss| - 1], r) && 28 <= r <= 29
    ensures TopHandle(ss, r)
  {
  }

  lemma SymbolsOfMonthComma(ss: seq<int>, r: int)
    requires TopLinks(ss) && Reduces(ss[|ss| - 1], r) && r == 30
    ensures TopHandle(ss, r)
  {
  }

  lemma SymbolsOfDayMonth(ss: seq<int>, r: int)
    requires TopLinks(ss) && Reduces(ss[|ss| - 1], r) && 31 <= r <= 32
    ensures TopHandle(ss, r)
  {
  }

  lemma SymbolsOfRel(ss: seq<int>, r: int)
    requires TopLinks(ss) && Reduces(ss[|ss| - 1], r) && 33 <= r <= 34
    ensures TopHandle(ss, r)
  {
  }

  lemma SymbolsOfRelUnit(ss: seq<int>, r: int)
    requires TopLinks(ss) && Reduces(ss[|ss| - 1], r) && 35 <= r <= 43
    ensures TopHandle(ss, r)
  {
  }

  lemma SymbolsOfDigits(ss: seq<int>, r: int)
    requires TopLinks(ss) && Reduces(ss[|ss| - 1], r) && 44 <= r <= 46
    ensures TopHandle(ss, r)
  {
  }

  lemma SymbolsOfSigned(ss: seq<int>, r: int)
    requires TopLinks(ss) && Reduces(ss[|ss| - 1], r) && 47 <= r <= 49
    ensures TopHandle(ss, r)
  {
  }

  lemma SymbolsOfMeridian(ss: seq<int>, r: int)
    requires TopLinks(ss) && Reduces(ss[|ss| - 1], r) && 50 <= r
    ensures TopHandle(ss, r)
  {
  }

  lemma TopEdges(ss: seq<int>)
    requires Linked(ss)
    ensures var n := |ss|;
            && (n > 1 ==> EdgeInto(ss, n - 1))
            && (n > 2 ==> EdgeInto(ss, n - 2))
            && (n > 3 ==> EdgeInto(ss, n - 3))
            && (n > 4 ==> EdgeInto(ss, n - 4))
            && (n > 5 ==> EdgeInto(ss, n - 5))
            && (n > 6 ==> EdgeInto(ss, n - 6))
  {
  }

  // The goto entered after a reduction fits on the uncovered state, and reductions run out.
  lemma GotoProperties(s: int, r: int, b: int)
    requires 0 <= s < 63 && 0 <= b < 63 && Reduces(s, r) && Uncovers(r, b)
    requires 44 <= r <= 46 ==> Edge(b, s)
    ensures SPEC <= Yyr1(r) < 37
    ensures var g := Goto(b, Yyr1(r));
            1 <= g < 63 && g != YYFINAL && Edge(b, g) && Yystos(g) == Yyr1(r) && Rank(g) < Rank(s)
  {
    hide Goto, Edge, Rank, Yystos, Uncovers;
    GotoTarget(r, b);
    if r <= 16 {
      GotoRankOfItem(s, r, b);
    } else if r <= 43 {
      GotoRankOfDate(s, r, b);
    } else if r <= 46 {
      GotoRankOfDigits(s, r, b);
    } else {
      GotoRankOfRest(s, r, b);
    }
  }

  lemma GotoRankOfItem(s: int, r: int, b: int)
    requires 0 <= s < 63 && 0 <= b < 63 && Reduces(s, r) && Uncovers(r, b) && r <= 16
    ensures SPEC <= Yyr1(r) < 37 && 0 <= Goto(b, Yyr1(r)) && Rank(Goto(b, Yyr1(r))) < Rank(s)
  {
  }

  lemma GotoRankOfDate(s: int, r: int, b: int)
    requires 0 <= s < 63 && 0 <= b < 63 && Reduces(s, r) && Uncovers(r, b) && 16 < r <= 43
    ensures SPEC <= Yyr1(r) < 37 && 0 <= Goto(b, Yyr1(r)) && Rank(Goto(b, Yyr1(r))) < Rank(s)
  {
  }

  lemma GotoRankOfDigits(s: int, r: int, b: int)
    requires 0 <= s < 63 && 0 <= b < 63 && Reduces(s, r) && Uncovers(r, b) && 44 <= r <= 46
    requires Edge(b, s)
    ensures SPEC <= Yyr1(r) < 37 && 0 <= Goto(b, Yyr1(r)) && Rank(Goto(b, Yyr1(r))) < Rank(s)
  {
  }

  lemma GotoRankOfRest(s: int, r: int, b: int)
    requires 0 <= s < 63 && 0 <= b < 63 && Reduces(s, r) && Uncovers(r, b) && 47 <= r
    ensures SPEC <= Yyr1(r) < 37 && 0 <= Goto(b, Yyr1(r)) && Rank(Goto(b, Yyr1(r))) < Rank(s)
  {
  }

  // State g is entered for symbol x on state b.
  predicate Follows(b: int, x: int, g: int) {
    1 <= g < 63 && g != YYFINAL && Edge(b, g) && Yystos(g) == x
  }

  lemma GotoTarget(r: int, b: int)
    requires 2 <= r < 52 && 0 <= b < 63 && Uncovers(r, b)
    ensures SPEC <= Yyr1(r) < 37 && Follows(b, Yyr1(r), Goto(b, Yyr1(r)))
  {
    hide Uncovers, Goto, Follows;
    if r <= 9 {
      GotoOfList(r, b);
    } else if r <= 43 {
      GotoOfItem(r, b);
    } else if r <= 46 {
      GotoOfDigits(r, b);
    } else {
      GotoOfRest(r, b);
    }
  }

  lemma GotoOfList(r: int, b: int)
    requires 2 <= r <= 9 && 0 <= b < 63 && Uncovers(r, b)
    ensures SPEC <= Yyr1(r) < 37 && Follows(b, Yyr1(r), Goto(b, Yyr1(r)))
  {
  }

  lemma GotoOfItem(r: int, b: int)
    requires 10 <= r <= 43 && 0 <= b < 63 && Uncovers(r, b)
    ensures SPEC <= Yyr1(r) < 37 && Follows(b, Yyr1(r), Goto(b, Yyr1(r)))
  {
  }

  lemma GotoOfDigits(r: int, b: int)
    requires 44 <= r <= 46 && 0 <= b < 63 && Uncovers(r, b)
    ensures SPEC <= Yyr1(r) < 37 && Follows(b, Yyr1(r), Goto(b, Yyr1(r)))
  {
  }

  lemma GotoOfRest(r: int, b: int)
    requires 47 <= r < 52 && 0 <= b < 63 && Uncovers(r, b)
    ensures SPEC <= Yyr1(r) < 37 && Follows(b, Yyr1(r), Goto(b, Yyr1(r)))
  {
  }

  lemma LinkedBelow(ss: seq<int>)
    requires Linked(ss) && |ss| > 1
    ensures Linked(ss[..|ss| - 1])
  {
    var tt := ss[..|ss| - 1];
    forall i | 0 < i < |tt|
      ensures EdgeInto(tt, i)
    {
      assert EdgeInto(ss, i);
    }
  }

  // The stack never holds more than eight states.
  lemma {:induction false} StackIsShallow(ss: seq<int>)
    requires Linked(ss)
    ensures |ss| - 1 <= Depth(ss[|ss| - 1]) <= 7
    decreases |ss|
  {
    if |ss| > 1 {
      LinkedBelow(ss);
      StackIsShallow(ss[..|ss| - 1]);
      assert EdgeInto(ss, |ss| - 1);
    }
  }
}
