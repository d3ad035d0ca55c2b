/**
 The parser as it runs: an LR driver over two fixed arrays, with semantic actions that write the fields of one
 Variables record.  It is proved to compute exactly what the machine on values computes.
 */
module DateParser {
  import opened Options
  import opened DateTables
  import opened DateGrammar
  import opened DateAutomaton
  import opened DateActions
  import opened DateMachine

  class Variables {
    var dstMode: DstMode
    var dayOrdinal: Option<int>
    var dayNumber: Option<int>
    var haveDate: int
    var haveDay: int
    var haveRel: int
    var haveTime: int
    var haveZone: int
    var timezone: int
    var day: int
    var hour: int
    var minutes: int
    var month: int
    var seconds: int
    var year: int
    var meridian: MeridianMode
    var relMonth: int
    var relSeconds: int

    // The record as PTimeParse prepares it for the date of today and its zone
    constructor (year: int, month: int, day: int, timezone: int)
      ensures View() == Vars(DstMaybe, None, None, 0, 0, 0, 0, 0, timezone, day, 0, 0, month, 0, year, Mer24, 0, 0)
      ensures Initial(View())
    {
      dstMode, dayOrdinal, dayNumber := DstMaybe, None, None;
      haveDate, haveDay, haveRel, haveTime, haveZone := 0, 0, 0, 0, 0;
      this.timezone, this.day, this.month, this.year := timezone, day, month, year;
      hour, minutes, seconds, meridian := 0, 0, 0, Mer24;
      relMonth, relSeconds := 0, 0;
    }

    function View(): Vars
      reads this
    {
      Vars(dstMode, dayOrdinal, dayNumber, haveDate, haveDay, haveRel, haveTime, haveZone,
           timezone, day, hour, minutes, month, seconds, year, meridian, relMonth, relSeconds)
    }

    method SetPossibleDate(possibleDay: int, possibleMonth: int, possibleYear: int, order: int)
      modifies this
      ensures View() == PossibleDate(old(View()), possibleDay, possibleMonth, possibleYear, order)
    {
      var dateOrder := order;
      if possibleDay > 31 {
        dateOrder := 2;
      } else if possibleDay > 12 {
        dateOrder := 1;
      } else if possibleMonth > 12 {
        dateOrder := 0;
      }
      if dateOrder == 0 {
        day, month, year := possibleMonth, possibleDay, possibleYear;
      } else if dateOrder == 1 {
        day, month, year := possibleDay, possibleMonth, possibleYear;
      } else {
        day, month, year := possibleYear, possibleMonth, possibleDay;
      }
    }

    // The action of a rule on the values of its right-hand side
    method Perform(r: int, x: seq<Value>, order: int)
      requires 4 <= r < 52 && |x| == |Rhs(r)|
      modifies this
      ensures View() == Act(r, x, old(View()), order)
    {
      if r <= 9 {
        PerformCount(r, x, order);
      } else if r <= 16 {
        PerformTime(r, x, order);
      } else if r <= 23 {
        PerformZoneOrDay(r, x, order);
      } else if r <= 27 {
        PerformDate(r, x, order);
      } else if r <= 32 {
        PerformMonthDate(r, x, order);
      } else if r <= 43 {
        PerformRel(r, x, order);
      } else {
        PerformNumber(r, x, order);
      }
    }

    method PerformCount(r: int, ghost x: seq<Value>, ghost order: int)
      requires 4 <= r <= 9 && |x| == |Rhs(r)|
      modifies this
      ensures View() == Act(r, x, old(View()), order)
    {
      match r
      case 4 => haveTime := haveTime + 1;
      case 5 => haveZone := haveZone + 1;
      case 6 => haveDate := haveDate + 1;
      case 7 => haveDay := haveDay + 1;
      case 8 => haveRel := haveRel + 1;
      case _ =>
    }

    method SetClock(h: int, m: int, s: int, mer: MeridianMode)
      modifies this
      ensures View() == SetTime(old(View()), h, m, s, mer)
    {
      hour, minutes, seconds, meridian := h, m, s, mer;
    }

    method SetOffset(n: int)
      modifies this
      ensures View() == SetZone(old(View()), ZoneMinutes(n), DstOff)
    {
      dstMode, timezone := DstOff, -(Rem(n, 100) + Quot(n, 100) * 60);
    }

    // Six or eight digits as a date, and up to six as a time
    method SetDigits(n: int)
      modifies this
      ensures View() == SetDigitDate(old(View()), n)
    {
      hide Quot, Rem;
      day, month, year := Rem(n, 100), Rem(Quot(n, 100), 100), Quot(n, 10000);
    }

    method SetDigitClock(n: int)
      modifies this
      ensures View() == SetDigitTime(old(View()), n)
    {
      hide Quot, Rem;
      SetClock(Quot(n, 10000), Rem(Quot(n, 100), 100), Rem(n, 100), Mer24);
    }

    method PerformTime(r: int, x: seq<Value>, ghost order: int)
      requires 10 <= r <= 16 && |x| == |Rhs(r)|
      modifies this
      ensures View() == Act(r, x, old(View()), order)
    {
      hide Quot, Rem, ZoneMinutes;
      match r
      case 10 => SetClock(Num(x[0]), 0, 0, Mer(x[1]));
      case 11 =>
        SetClock(Quot(Num(x[0]), 100), Rem(Num(x[0]), 100), 0, Mer24);
        SetOffset(Num(x[1]));
      case 12 =>
        var n := Num(x[0]);
        SetDigitClock(n);
        SetOffset(Num(x[1]));
      case 13 => SetClock(Num(x[0]), Num(x[2]), 0, Mer(x[3]));
      case 14 =>
        SetClock(Num(x[0]), Num(x[2]), seconds, Mer24);
        SetOffset(Num(x[3]));
      case 15 => SetClock(Num(x[0]), Num(x[2]), Num(x[4]), Mer(x[5]));
      case _ =>
        SetClock(Num(x[0]), Num(x[2]), Num(x[4]), Mer24);
        SetOffset(Num(x[5]));
    }

    method PerformZoneOrDay(r: int, x: seq<Value>, ghost order: int)
      requires 17 <= r <= 23 && |x| == |Rhs(r)|
      modifies this
      ensures View() == Act(r, x, old(View()), order)
    {
      hide Quot, Rem;
      match r
      case 17 => timezone, dstMode := Num(x[0]), DstOff;
      case 18 => timezone, dstMode := Num(x[0]), DstOn;
      case 19 => timezone, dstMode := Num(x[0]), DstOn;
      case 20 =>
        if haveTime > 0 {
          timezone, dstMode := Num(x[0]), DstOff;
        } else {
          haveZone := haveZone - 1;
        }
      case 21 => dayOrdinal, dayNumber := Some(1), Some(Num(x[0]));
      case 22 => dayOrdinal, dayNumber := Some(1), Some(Num(x[0]));
      case _ => dayOrdinal, dayNumber := Some(Num(x[0])), Some(Num(x[1]));
    }

    method PerformDate(r: int, x: seq<Value>, order: int)
      requires 24 <= r <= 27 && |x| == |Rhs(r)|
      modifies this
      ensures View() == Act(r, x, old(View()), order)
    {
      hide Quot, Rem;
      match r
      case 24 => SetPossibleDate(Num(x[0]), Num(x[2]), year, order);
      case 25 => SetPossibleDate(Num(x[0]), Num(x[2]), Num(x[4]), order);
      case 26 => SetPossibleDate(Num(x[0]), -Num(x[1]), -Num(x[2]), order);
      case _ => SetDigits(Num(x[0]));
    }

    // Dates with the name of a month
    method PerformMonthDate(r: int, x: seq<Value>, order: int)
      requires 28 <= r <= 32 && |x| == |Rhs(r)|
      modifies this
      ensures View() == Act(r, x, old(View()), order)
    {
      hide Quot, Rem;
      match r
      case 28 => SetPossibleDate(Num(x[0]), Num(x[1]), -Num(x[2]), order);
      case 29 =>
        month := Num(x[0]);
        if Num(x[1]) > 31 {
          year := Num(x[1]);
        } else {
          day := Num(x[1]);
        }
      case 30 => month, day, year := Num(x[0]), Num(x[1]), Num(x[3]);
      case 31 =>
        if Num(x[0]) > 31 {
          year := Num(x[0]);
        } else {
          day := Num(x[0]);
        }
        month := Num(x[1]);
      case _ => SetPossibleDate(Num(x[0]), Num(x[1]), Num(x[2]), order);
    }

    method PerformRel(r: int, x: seq<Value>, ghost order: int)
      requires 33 <= r <= 43 && |x| == |Rhs(r)|
      modifies this
      ensures View() == Act(r, x, old(View()), order)
    {
      hide Quot, Rem;
      match r
      case 33 => relSeconds, relMonth := -relSeconds, -relMonth;
      case 34 =>
      case 35 => relSeconds := relSeconds + Num(x[0]) * Num(x[1]) * 60;
      case 36 => relSeconds := relSeconds + Num(x[0]) * Num(x[1]) * 60;
      case 37 => relSeconds := relSeconds + Num(x[0]) * 60;
      case 38 => relSeconds := relSeconds + Num(x[0]);
      case 39 => relSeconds := relSeconds + Num(x[0]);
      case 40 => relSeconds := relSeconds + 1;
      case 41 => relMonth := relMonth + Num(x[0]) * Num(x[1]);
      case 42 => relMonth := relMonth + Num(x[0]) * Num(x[1]);
      case _ => relMonth := relMonth + Num(x[0]);
    }

    method PerformNumber(r: int, x: seq<Value>, ghost order: int)
      requires 44 <= r < 52 && |x| == |Rhs(r)|
      modifies this
      ensures View() == Act(r, x, old(View()), order)
    {
      hide Quot, Rem;
      match r
      case 47 => PerformLoneNumber(Num(x[0]));
      case 48 => PerformLoneTime(Num(x[0]));
      case 49 => PerformSixDigits(Num(x[0]));
      case _ =>
    }

    method PerformLoneNumber(n: int)
      modifies this
      ensures View() == ActLoneNumber(n, old(View()))
    {
      hide Quot, Rem;
      if haveTime != 0 && haveDate != 0 && haveRel == 0 {
        year := n;
      } else if n > 240000 {
        haveDate := haveDate + 1;
        SetDigits(n);
      } else {
        haveTime := haveTime + 1;
        if n < 10000 {
          SetClock(Quot(n, 100), Rem(n, 100), 0, Mer24);
        } else {
          SetDigitClock(n);
        }
      }
    }

    method PerformLoneTime(n: int)
      modifies this
      ensures View() == ActLoneTime(n, old(View()))
    {
      hide Quot, Rem;
      if haveTime != 0 && haveDate != 0 && haveRel == 0 {
        year := n;
      } else {
        haveTime := haveTime + 1;
        SetClock(Quot(n, 100), Rem(n, 100), 0, Mer24);
      }
    }

    method PerformSixDigits(n: int)
      modifies this
      ensures View() == ActSixDigits(n, old(View()))
    {
      hide Quot, Rem;
      if haveDate == 0 && n > 240000 {
        haveDate := haveDate + 1;
        SetDigits(n);
      } else if haveTime == 0 {
        haveTime := haveTime + 1;
        SetDigitClock(n);
      }
    }
  }

  const YYEMPTY := -2
  const YYEOF := 0

  // The next token code and value; at the end of the input -1, and a value that means nothing.
  method YyLex(input: seq<Lexeme>, pos: nat, haveTime: int) returns (code: int, val: Value, next: nat)
    requires pos <= |input|
    ensures if pos < |input| then (code, val) == Lex(input[pos], haveTime) && next == pos + 1
            else code == -1 && next == pos
  {
    if pos < |input| {
      var t := Lex(input[pos], haveTime);
      code, val, next := t.0, t.1, pos + 1;
    } else {
      code, val, next := -1, Number(0), pos;
    }
  }

  // The lookahead as the driver holds it: empty, at the end of the input, or a token code with its value
  ghost predicate Holds(look: Option<Token>, yychar: int, yylval: Value) {
    match look
    case None => yychar == YYEMPTY
    case Some(t) => if t == EOF then yychar == YYEOF || yychar == -1
                    else 0 < yychar && t == Token(Yytranslate(yychar), yylval)
  }

  // What is read ahead of the shifted tokens
  ghost predicate ReadTo(c: Config, yychar: int, pos: nat) {
    pos == |c.shifted| + if yychar > 0 then 1 else 0
  }

  /**
   yybackup: decide what to do, reading a lookahead only if the state needs one.
   shift: enter state yyn; otherwise reduce by rule yyn, or report an error if yyn is 0.
   */
  method YyBackup(input: seq<Lexeme>, yystate: int, yychar0: int, yylval0: Value, pos0: nat, haveTime: int,
                  ghost c: Config)
    returns (yychar: int, yylval: Value, pos: nat, shift: bool, yyn: int)
    requires LexerOutput(input) && 0 <= yystate < 63 && yystate != YYFINAL
    requires c.states != [] && c.Top() == yystate && |c.shifted| <= |input| && c.vars.haveTime == haveTime
    requires Holds(c.look, yychar0, yylval0) && ReadTo(c, yychar0, pos0) && pos0 <= |input|
    requires c.look.Some? ==> 0 <= c.look.value.sym < YYNTOKENS
    ensures var d := Fetch(input, c);
            && Holds(d.look, yychar, yylval) && ReadTo(c, yychar, pos) && pos <= |input|
            && (Yypact(yystate) != YYPACT_NINF ==> d.look.Some? && 0 <= d.look.value.sym < YYNTOKENS)
            && Decision(d) == (if shift then Shift(yyn) else if yyn == 0 then SyntaxError else Reduce(yyn))
  {
    hide Yypact, Yycheck, Yytable, Yydefact, Yytranslate;
    yychar, yylval, pos, shift := yychar0, yylval0, pos0, false;
    yyn := Yypact(yystate);
    if yyn == YYPACT_NINF {
      yyn := Yydefact(yystate);
      return;
    }
    if yychar == YYEMPTY {
      yychar, yylval, pos := YyLex(input, pos, haveTime);
    }
    var yytoken;
    if yychar <= YYEOF {
      yychar, yytoken := YYEOF, END;
    } else {
      yytoken := Yytranslate(yychar);
    }
    yyn := yyn + yytoken;
    if yyn < 0 || YYLAST < yyn || Yycheck(yyn) != yytoken {
      yyn := Yydefact(yystate);
    } else {
      TableEntryIsNotZero(yyn);
      yyn := Yytable(yyn);
      if yyn <= 0 {
        yyn := -yyn;
      } else {
        shift := true;
      }
    }
  }

  // No entry that belongs to a token is zero, so a reduction from the table is by a rule.
  lemma TableEntryIsNotZero(n: int)
    requires 0 <= n <= YYLAST && Yycheck(n) >= 0
    ensures Yytable(n) != 0
  {
  }

  // yyerrlab1: pop states until one shifts the error token.  None does, so the parse is abandoned.
  method YyRecover(yyss: array<int>, top: nat) returns (yyresult: int)
    requires top < yyss.Length && forall i :: 0 <= i <= top ==> 0 <= yyss[i] < 63
    ensures yyresult == 1
  {
    var yyssp := top;
    while true
      invariant 0 <= yyssp <= top
      decreases yyssp
    {
      var yyn := Yypact(yyss[yyssp]);
      if yyn != YYPACT_NINF {
        yyn := yyn + YYTERROR;
        if 0 <= yyn <= YYLAST {
          ErrorTokenNeverShifted(yyn);
          if Yycheck(yyn) == YYTERROR {
            assert false;
          }
        }
      }
      if yyssp == 0 {
        return 1;
      }
      yyssp := yyssp - 1;
    }
  }

  // The arrays up to yyssp hold the machine's configuration; the value of the spec is never used.
  ghost predicate Mirrors(c: Config, ss: seq<int>, vs: seq<Value>) {
    && |ss| == |vs| == |c.states| == |c.trees| + 1
    && (forall i :: 0 <= i < |ss| ==> ss[i] == c.states[i])
    && ValuesOf(c.trees, vs)
  }

  ghost predicate ValuesOf(trees: seq<Tree>, vs: seq<Value>)
    requires |vs| == |trees| + 1
  {
    forall i :: 2 <= i < |vs| ==> vs[i] == Val(trees[i - 1])
  }

  lemma ValuesReplaced(trees: seq<Tree>, vs: seq<Value>, n: nat, t: Tree, val: Value)
    requires |vs| == |trees| + 1 && ValuesOf(trees, vs) && n < |vs|
    requires |vs| - n == 1 || val == Val(t)
    ensures ValuesOf(trees[..|trees| - n] + [t], vs[..|vs| - n] + [val])
  {
  }

  // The state to enter for a nonterminal on top of a state
  method YyGoto(x: int, state: int) returns (yystate: int)
    requires 0 <= state < 63 && YYNTOKENS <= x < 37
    ensures yystate == Goto(state, x)
  {
    yystate := Yypgoto(x - YYNTOKENS) + state;
    if 0 <= yystate <= YYLAST && Yycheck(yystate) == state {
      yystate := Yytable(yystate);
    } else {
      yystate := Yydefgoto(x - YYNTOKENS);
    }
  }

  lemma SymbolsEnd(r: int)
    requires 2 <= r < 52
    ensures Yyr1(r) < 37
  {
  }

  // The switch over the rules, and the value left for the left-hand side: $1 unless the rule is empty
  method YyAction(r: int, yyvs: array<Value>, sp: nat, order: int, v: Variables, ghost d: Config)
    returns (yyval: Value)
    requires yyvs.Length == YYINITDEPTH && sp + 1 < YYINITDEPTH && |d.states| == sp + 1
    requires Linked(d.states) && d.vars == v.View() && 2 <= r < 52 && Handle(d.states, r)
    requires |d.trees| + 1 == |d.states| && ValuesOf(d.trees, yyvs[..sp + 1])
    modifies v
    ensures v.View() == Act(r, Vals(d.trees[|d.trees| - |Rhs(r)|..]), d.vars, order)
    ensures r == 50 ==> yyval == Meridian(Mer24)
    ensures Rhs(r) != [] ==> yyval == yyvs[sp + 1 - |Rhs(r)|]
  {
    hide Act, Edge, Rhs, Yyr1, Yyr2, Goto, Yystos;
    RuleLength(r);
    EmptyRules(r);
    var yylen := Yyr2(r);
    yyval := yyvs[sp + 1 - yylen];
    ghost var vs := yyvs[..sp + 1];
    if r >= 4 {
      HandleAboveSpec(d, vs, r);
      assert yyvs[sp - yylen + 1..sp + 1] == vs[|vs| - yylen..];
      v.Perform(r, yyvs[sp - yylen + 1..sp + 1], order);
    } else {
      PassThrough(r, Vals(d.trees[|d.trees| - yylen..]), d.vars, order);
    }
    if r == 50 {
      yyval := Meridian(Mer24);
    }
  }

  // yyreduce: perform the action, pop the right-hand side and push the left-hand side.
  method YyReduce(r: int, yyss: array<int>, yyvs: array<Value>, sp: nat, order: int, v: Variables,
                  ghost d: Config, ghost e: Config)
    returns (yyssp: nat, yystate: int)
    requires yyss.Length == yyvs.Length == YYINITDEPTH && sp + 1 < YYINITDEPTH
    requires Linked(d.states) && d.vars == v.View() && Mirrors(d, yyss[..sp + 1], yyvs[..sp + 1])
    requires 2 <= r < 52 && Handle(d.states, r) && SPEC <= Yyr1(r) && e == Pop(d, r, order)
    modifies yyvs, v
    ensures yyssp < YYINITDEPTH && v.View() == e.vars
    ensures Mirrors(e, yyss[..yyssp] + [yystate], yyvs[..yyssp + 1])
  {
    hide Act, Edge, Rhs, Yyr1, Yyr2, Goto, Yystos, Linked, Handle, Mirrors, ValuesOf, Pop;
    ghost var ss, vs := yyss[..sp + 1], yyvs[..sp + 1];
    RuleLength(r);
    SymbolsEnd(r);
    EmptyRules(r);
    BelowHandle(d, r, ss, vs);
    var yyval := YyAction(r, yyvs, sp, order, v, d);
    var yylen := Yyr2(r);
    yyssp := sp - yylen;
    assert yyss[yyssp] == ss[yyssp];
    yystate := YyGoto(Yyr1(r), yyss[yyssp]);
    yyssp := yyssp + 1;
    yyvs[yyssp] := yyval;
    PopIsMirrored(d, r, order, ss, vs, yystate, yyval);
    PopVars(d, r, order);
    assert yyss[..yyssp] == ss[..|ss| - yylen];
    assert yyvs[..yyssp + 1] == vs[..|vs| - yylen] + [yyval];
  }

  lemma BelowHandle(d: Config, r: int, ss: seq<int>, vs: seq<Value>)
    requires 2 <= r < 52 && Mirrors(d, ss, vs) && Handle(d.states, r)
    ensures |ss| == |vs| == |d.states| == |d.trees| + 1 && |Rhs(r)| < |ss| && ValuesOf(d.trees, vs)
    ensures 0 <= ss[|ss| - |Rhs(r)| - 1] < 63 && ss[|ss| - |Rhs(r)| - 1] == d.states[|ss| - |Rhs(r)| - 1]
  {
    hide Rhs, Yystos, Uncovers, ValuesOf;
  }

  // The values under a handle are those of its trees.
  lemma HandleAboveSpec(d: Config, vs: seq<Value>, r: int)
    requires 4 <= r < 52 && Linked(d.states) && Handle(d.states, r)
    requires |vs| == |d.states| == |d.trees| + 1 && ValuesOf(d.trees, vs)
    ensures vs[|vs| - |Rhs(r)|..] == Vals(d.trees[|d.trees| - |Rhs(r)|..])
    ensures |vs| - |Rhs(r)| >= 2
  {
    hide Linked, Handle, Rhs, Vals, ValuesOf;
    SpecIsBelow(d.states, r);
    ValuesOfTop(d.trees, vs, |Rhs(r)|);
  }

  lemma ValuesOfTop(trees: seq<Tree>, vs: seq<Value>, n: nat)
    requires |vs| == |trees| + 1 && ValuesOf(trees, vs) && n + 2 <= |vs|
    ensures vs[|vs| - n..] == Vals(trees[|trees| - n..])
  {
    hide Val;
    var x, kids := vs[|vs| - n..], trees[|trees| - n..];
    forall i | 0 <= i < n ensures x[i] == Vals(kids)[i] {
      var k := |trees| - n + i;
      assert kids[i] == trees[k] && x[i] == vs[k + 1] == Val(trees[k]);
    }
  }

  // Rules from 4 on are applied above the spec.
  lemma SpecIsBelow(ss: seq<int>, r: int)
    requires 4 <= r < 52 && Linked(ss) && Handle(ss, r)
    ensures |Rhs(r)| + 2 <= |ss|
  {
    hide Rhs, Edge, Yystos;
    assert ss[|ss| - |Rhs(r)| - 1] != 0;
  }

  lemma PopIsMirrored(d: Config, r: int, order: int, ss: seq<int>, vs: seq<Value>, g: int, yyval: Value)
    requires 2 <= r < 52 && Linked(d.states) && Mirrors(d, ss, vs) && Handle(d.states, r) && SPEC <= Yyr1(r)
    requires g == Goto(d.states[|ss| - |Rhs(r)| - 1], Yyr1(r))
    requires yyval == if r == 50 then Meridian(Mer24) else if r == 2 then yyval else vs[|vs| - |Rhs(r)|]
    ensures var e, n := Pop(d, r, order), |Rhs(r)|;
            e.Top() == g && Mirrors(e, ss[..|ss| - n] + [g], vs[..|vs| - n] + [yyval])
  {
    hide Act, Edge, Goto, Uncovers, Linked, Handle, Rhs, Pop, ValuesOf, Yyr1, Val, Vals, Mirrors;
    BelowHandle(d, r, ss, vs);
    var n, kids := |Rhs(r)|, d.trees[|d.trees| - |Rhs(r)|..];
    EmptyRules(r);
    if r >= 4 {
      HandleAboveSpec(d, vs, r);
      ValueOfNode(r, kids, vs[|vs| - n..], yyval);
    } else {
      BottomRules(d.states, r);
    }
    ValuesReplaced(d.trees, vs, n, Node(r, kids), yyval);
    PopAsReplacement(d, r, g, order);
    MirrorsStates(d, ss, vs);
    MirrorsBuilt(Pop(d, r, order), ss[..|ss| - n] + [g], vs[..|vs| - n] + [yyval]);
  }

  lemma MirrorsBuilt(c: Config, ss: seq<int>, vs: seq<Value>)
    requires c.states == ss && |ss| == |vs| == |c.trees| + 1 && ValuesOf(c.trees, vs)
    ensures Mirrors(c, ss, vs)
  {
    hide ValuesOf;
  }

  lemma ValueOfNode(r: int, kids: seq<Tree>, x: seq<Value>, yyval: Value)
    requires 4 <= r < 52 && |kids| == |x| == |Rhs(r)| && x == Vals(kids)
    requires yyval == if x == [] then Meridian(Mer24) else x[0]
    ensures yyval == Val(Node(r, kids))
  {
  }

  lemma BottomRules(ss: seq<int>, r: int)
    requires 2 <= r <= 3 && Linked(ss) && Handle(ss, r)
    ensures |ss| - |Rhs(r)| == 1
  {
  }

  lemma EmptyRules(r: int)
    requires 2 <= r < 52
    ensures |Rhs(r)| == 0 <==> r == 2 || r == 50
  {
  }

  // The driver's variables hold configuration c, which is on the way from the start.
  ghost predicate Driving(input: seq<Lexeme>, order: int, v0: Vars, c: Config,
                          ss: seq<int>, vs: seq<Value>, yychar: int, yylval: Value, pos: nat, v: Vars)
    requires LexerOutput(input)
  {
    && Consistent(input, order, v0, c)
    && Run(input, order, v0, c) == Parse(input, order, v0)
    && c.states == ss && c.vars == v && |vs| == |ss|
    && (c.Top() != YYFINAL ==> Mirrors(c, ss, vs) && Holds(c.look, yychar, yylval) && ReadTo(c, yychar, pos))
  }

  lemma DrivingFacts(input: seq<Lexeme>, order: int, v0: Vars, c: Config,
                     ss: seq<int>, vs: seq<Value>, yychar: int, yylval: Value, pos: nat, v: Vars)
    requires LexerOutput(input) && Driving(input, order, v0, c, ss, vs, yychar, yylval, pos, v)
    ensures Consistent(input, order, v0, c) && Run(input, order, v0, c) == Parse(input, order, v0)
    ensures c.states == ss && c.vars == v && |vs| == |ss| && 0 < |ss| <= 8 && Linked(ss) && 0 <= c.Top() < 63
    ensures c.Top() != YYFINAL ==>
              && Mirrors(c, ss, vs) && Holds(c.look, yychar, yylval) && ReadTo(c, yychar, pos)
              && |c.shifted| <= |input| && pos <= |input|
              && (c.look.Some? ==> 0 <= c.look.value.sym < YYNTOKENS)
  {
    hide EffectAll, YieldAll, Run, Parse;
    StackIsShallow(c.states);
    if c.look.Some? {
      assert TokenAt(input, |c.shifted|, c.look.value);
    }
  }

  lemma PushFrame(d: Config, q: int)
    requires d.look.Some?
    ensures var e := Push(d, q);
            && e.states == d.states + [q] && e.states != [] && e.Top() == q && e.vars == d.vars
            && e.look == None && |e.shifted| == |d.shifted| + 1
  {
  }

  lemma PushMirrors(d: Config, q: int, ss: seq<int>, vs: seq<Value>)
    requires d.look.Some? && Mirrors(d, ss, vs)
    ensures Mirrors(Push(d, q), ss + [q], vs + [d.look.value.val])
  {
    var t := Leaf(d.look.value);
    assert Val(t) == d.look.value.val;
    hide Val;
    assert d.trees + [t] == d.trees[..|d.trees|] + [t] && vs == vs[..|vs|];
    ValuesReplaced(d.trees, vs, 0, t, d.look.value.val);
  }

  lemma HoldsToken(look: Option<Token>, yychar: int, yylval: Value)
    requires look.Some? && Holds(look, yychar, yylval) && look != Some(EOF)
    ensures yychar > 0 && yylval == look.value.val
  {
  }

  lemma MirrorsSame(c: Config, d: Config, ss: seq<int>, vs: seq<Value>)
    requires Mirrors(c, ss, vs) && d.states == c.states && d.trees == c.trees
    ensures Mirrors(d, ss, vs)
  {
  }

  lemma DrivesOnShift(input: seq<Lexeme>, order: int, v0: Vars, c: Config, q: int,
                      ss: seq<int>, vs: seq<Value>, yychar: int, yylval: Value, pos: nat)
    requires LexerOutput(input) && Consistent(input, order, v0, c) && c.Top() != YYFINAL && Mirrors(c, ss, vs)
    requires Run(input, order, v0, c) == Parse(input, order, v0) && c.states == ss
    requires var d := Fetch(input, c);
             && (Yypact(d.Top()) != YYPACT_NINF ==> d.look.Some? && 0 <= d.look.value.sym < YYNTOKENS)
             && Decision(d) == Shift(q) && Holds(d.look, yychar, yylval) && ReadTo(c, yychar, pos)
    ensures Fetch(input, c).look.Some?
    ensures var e := Push(Fetch(input, c), q);
            && Driving(input, order, v0, e, ss + [q], vs + [yylval], YYEMPTY, yylval, pos, c.vars)
            && |e.shifted| == |c.shifted| + 1 && e.states != []
  {
    hide Run, Consistent, Act, Decision, Parse, Fetch, Push, Mirrors, Holds, Yypact, Linked, LexerOutput;
    RunShifts(input, order, v0, c, q);
    StackOf(input, order, v0, c);
    FetchFrame(input, c);
    var d := Fetch(input, c);
    ShiftNeedsLook(d, q);
    DecisionOnEnd(d, q);
    PushFrame(d, q);
    MirrorsLength(c, ss, vs);
    if q != YYFINAL {
      HoldsToken(d.look, yychar, yylval);
      MirrorsSame(c, d, ss, vs);
      PushMirrors(d, q, ss, vs);
      HoldsNothing(yylval);
    }
  }

  lemma ShiftNeedsLook(d: Config, q: int)
    requires d.states != [] && 0 <= d.Top() < 63
    requires Yypact(d.Top()) != YYPACT_NINF ==> d.look.Some? && 0 <= d.look.value.sym < YYNTOKENS
    requires Decision(d) == Shift(q)
    ensures d.look.Some? && 0 <= d.look.value.sym < YYNTOKENS
  {
    hide Yypact, Action;
  }

  lemma MirrorsLength(c: Config, ss: seq<int>, vs: seq<Value>)
    requires Mirrors(c, ss, vs)
    ensures |ss| == |vs|
  {
  }

  lemma HoldsNothing(yylval: Value)
    ensures Holds(None, YYEMPTY, yylval)
  {
  }

  // Shifting the end of the input enters the final state.
  lemma DecisionOnEnd(d: Config, q: int)
    requires d.states != [] && 0 <= d.Top() < 63 && d.Top() != YYFINAL && d.look.Some?
    requires 0 <= d.look.value.sym < YYNTOKENS && Decision(d) == Shift(q)
    ensures d.look == Some(EOF) ==> q == YYFINAL
  {
    DecisionIsAction(d);
    ShiftProperties(d.Top(), d.look.value.sym);
    EndIsFinal(q);
  }

  lemma StatesInTable(ss: seq<int>)
    requires Linked(ss)
    ensures forall i :: 0 <= i < |ss| ==> 0 <= ss[i] < 63
  {
    hide Edge;
  }

  // A reduction that is decided can be performed.
  lemma ReduceFits(input: seq<Lexeme>, order: int, v0: Vars, c: Config, r: int)
    requires LexerOutput(input) && Consistent(input, order, v0, c) && c.Top() != YYFINAL
    requires var d := Fetch(input, c);
             && (Yypact(d.Top()) != YYPACT_NINF ==> d.look.Some? && 0 <= d.look.value.sym < YYNTOKENS)
             && Decision(d) == Reduce(r)
    ensures 2 <= r < 52 && Handle(c.states, r) && SPEC <= Yyr1(r) && |c.trees| + 1 == |c.states|
    ensures var d := Fetch(input, c); d.states == c.states && d.trees == c.trees && d.vars == c.vars
  {
    hide Run, Consistent, Act, Decision, Fetch, Pop, Yypact, Linked, LexerOutput, Handle, Edge, Rank, Reduces, Yyr1;
    RunReduces(input, order, v0, c, r);
    StackOf(input, order, v0, c);
    ReducesInTable(c.Top(), r);
    FetchFrame(input, c);
  }

  lemma DrivesOnReduce(input: seq<Lexeme>, order: int, v0: Vars, c: Config, r: int, yychar: int, yylval: Value,
                       pos: nat, ss: seq<int>, vs: seq<Value>)
    requires LexerOutput(input) && Consistent(input, order, v0, c) && c.Top() != YYFINAL
    requires Run(input, order, v0, c) == Parse(input, order, v0)
    requires var d := Fetch(input, c);
             && (Yypact(d.Top()) != YYPACT_NINF ==> d.look.Some? && 0 <= d.look.value.sym < YYNTOKENS)
             && Decision(d) == Reduce(r) && Holds(d.look, yychar, yylval) && ReadTo(c, yychar, pos)
    requires 2 <= r < 52 && Handle(c.states, r) && SPEC <= Yyr1(r) && |c.trees| + 1 == |c.states|
    requires Fetch(input, c).states == c.states && Fetch(input, c).trees == c.trees
    requires Mirrors(Pop(Fetch(input, c), r, order), ss, vs)
    ensures var e := Pop(Fetch(input, c), r, order);
            && Driving(input, order, v0, e, ss, vs, yychar, yylval, pos, e.vars)
            && e.shifted == c.shifted && Rank(e.Top()) < Rank(c.Top()) && e.states != []
  {
    hide Run, Consistent, Act, Decision, Parse, Fetch, Pop, Mirrors, Holds, Yypact, Linked, LexerOutput, Handle;
    hide Edge, Rank, Reduces, Goto, Yyr1;
    RunReduces(input, order, v0, c, r);
    StackOf(input, order, v0, c);
    FetchFrame(input, c);
    var d := Fetch(input, c);
    PopKeepsLook(d, r, order);
    var e := Pop(d, r, order);
    StackOf(input, order, v0, e);
    MirrorsStates(e, ss, vs);
  }

  lemma ReducesInTable(s: int, r: int)
    requires 0 <= s < 63 && Reduces(s, r)
    ensures 2 <= r < 52
  {
    hide Yydefact;
  }

  lemma MirrorsStates(c: Config, ss: seq<int>, vs: seq<Value>)
    requires Mirrors(c, ss, vs)
    ensures c.states == ss && |ss| == |vs|
  {
  }

  lemma DrivesFromStart(input: seq<Lexeme>, order: int, v0: Vars, vs: seq<Value>, yylval: Value)
    requires LexerOutput(input) && |vs| == 1
    ensures Driving(input, order, v0, Start(v0), [0], vs, YYEMPTY, yylval, 0, v0)
  {
    hide Act;
    StartIsConsistent(input, order, v0);
  }

  lemma RunAccepts(input: seq<Lexeme>, order: int, v0: Vars, c: Config)
    requires LexerOutput(input) && Consistent(input, order, v0, c) && c.Top() == YYFINAL
    ensures Run(input, order, v0, c) == Accepted(c)
  {
  }

  // A reduction within the driver: the arrays go on holding a configuration that is on the way.
  method YyReduceStep(input: seq<Lexeme>, r: int, yyss: array<int>, yyvs: array<Value>, sp: nat, order: int,
                      v: Variables, ghost v0: Vars, ghost c: Config,
                      ghost yychar: int, ghost yylval: Value, ghost pos: nat)
    returns (yyssp: nat, yystate: int, ghost e: Config)
    requires LexerOutput(input) && yyss.Length == yyvs.Length == YYINITDEPTH && sp + 1 < YYINITDEPTH
    requires Consistent(input, order, v0, c) && Linked(c.states) && c.vars == v.View() && c.states != []
    requires 0 <= c.Top() < 63 && c.Top() != YYFINAL && |c.shifted| <= |input|
    requires Run(input, order, v0, c) == Parse(input, order, v0) && Mirrors(c, yyss[..sp + 1], yyvs[..sp + 1])
    requires var d := Fetch(input, c);
             && (Yypact(d.Top()) != YYPACT_NINF ==> d.look.Some? && 0 <= d.look.value.sym < YYNTOKENS)
             && Decision(d) == Reduce(r) && Holds(d.look, yychar, yylval) && ReadTo(c, yychar, pos)
    modifies yyvs, v
    ensures yyssp < YYINITDEPTH && e.states != []
    ensures Driving(input, order, v0, e, yyss[..yyssp] + [yystate], yyvs[..yyssp + 1], yychar, yylval, pos, v.View())
    ensures e.shifted == c.shifted && Rank(e.Top()) < Rank(c.Top())
  {
    hide Act, Run, Consistent, Parse, Linked, Fetch, Pop, Decision, Handle, Edge, Rank, Driving, Holds, ReadTo;
    hide Mirrors, LexerOutput, Yypact, Yyr1;
    ReduceFits(input, order, v0, c, r);
    ghost var d := Fetch(input, c);
    e := Pop(d, r, order);
    MirrorsSame(c, d, yyss[..sp + 1], yyvs[..sp + 1]);
    yyssp, yystate := YyReduce(r, yyss, yyvs, sp, order, v, d, e);
    DrivesOnReduce(input, order, v0, c, r, yychar, yylval, pos, yyss[..yyssp] + [yystate], yyvs[..yyssp + 1]);
  }

  // A shift within the driver
  method YyShiftStep(input: seq<Lexeme>, q: int, yyss: array<int>, yyvs: array<Value>, sp: nat, order: int,
                     ghost v0: Vars, ghost c: Config, ghost yychar: int, yylval: Value, ghost pos: nat)
    returns (yyssp: nat, yystate: int, ghost e: Config)
    requires LexerOutput(input) && yyss.Length == yyvs.Length == YYINITDEPTH && sp + 1 < YYINITDEPTH
    requires Consistent(input, order, v0, c) && c.states != []
    requires 0 <= c.Top() < 63 && c.Top() != YYFINAL && |c.shifted| <= |input|
    requires Run(input, order, v0, c) == Parse(input, order, v0) && Mirrors(c, yyss[..sp + 1], yyvs[..sp + 1])
    requires c.states == yyss[..sp + 1]
    requires var d := Fetch(input, c);
             && (Yypact(d.Top()) != YYPACT_NINF ==> d.look.Some? && 0 <= d.look.value.sym < YYNTOKENS)
             && Decision(d) == Shift(q) && Holds(d.look, yychar, yylval) && ReadTo(c, yychar, pos)
    modifies yyvs
    ensures yyssp < YYINITDEPTH && e.states != []
    ensures Driving(input, order, v0, e, yyss[..yyssp] + [yystate], yyvs[..yyssp + 1], YYEMPTY, yylval, pos, c.vars)
    ensures |e.shifted| == |c.shifted| + 1
  {
    hide Act, Run, Consistent, Parse, Fetch, Push, Decision, Edge, Driving, Holds, ReadTo, Mirrors, LexerOutput, Yypact;
    ghost var ss, vs := yyss[..sp + 1], yyvs[..sp + 1];
    DrivesOnShift(input, order, v0, c, q, ss, vs, yychar, yylval, pos);
    yyssp, yystate, e := sp + 1, q, Push(Fetch(input, c), q);
    yyvs[yyssp] := yylval;
    assert yyss[..yyssp] == ss && yyvs[..yyssp + 1] == vs + [yylval];
  }

  /**
   The driver.  The two stacks are arrays of YYINITDEPTH entries; that they never need to grow, and that the loop
   ends, is part of what is proved.
   */
  method YyParse(input: seq<Lexeme>, order: int, v: Variables) returns (yyresult: int)
    requires LexerOutput(input)
    modifies v
    ensures var o := Parse(input, order, old(v.View()));
            yyresult == (if o.Accepted? then 0 else 1) && v.View() == o.at.vars
  {
    hide Act, Run, Consistent, Parse, Linked, Fetch, Push, Pop, Decision, Handle, Edge, Rank, Driving, Holds, ReadTo;
    hide Mirrors, LexerOutput, Yypact, Yyr1, Labelled, TokenAt;
    var yyss, yyvs := new int[YYINITDEPTH], new Value[YYINITDEPTH];
    var yyssp: nat, yystate, pos: nat := 0, 0, 0;
    var yychar, yylval := YYEMPTY, Number(0);
    ghost var v0 := v.View();
    ghost var c := Start(v0);
    DrivesFromStart(input, order, v0, yyvs[..1], yylval);
    assert yyss[..0] + [0] == [0];
    while true
      invariant yyss.Length == yyvs.Length == YYINITDEPTH && yyssp < YYINITDEPTH
      invariant c.states != []
      invariant Driving(input, order, v0, c, yyss[..yyssp] + [yystate], yyvs[..yyssp + 1], yychar, yylval,
                        pos, v.View())
      decreases |input| + 1 - |c.shifted|, Rank(c.Top())
    {
      ghost var ss, vs := yyss[..yyssp] + [yystate], yyvs[..yyssp + 1];
      DrivingFacts(input, order, v0, c, ss, vs, yychar, yylval, pos, v.View());
      yyss[yyssp] := yystate;
      assert yyss[..yyssp + 1] == ss && c.Top() == yystate;
      if YYINITDEPTH - 1 <= yyssp {
        assert false;
      }
      if yystate == YYFINAL {
        RunAccepts(input, order, v0, c);
        return 0;
      }
      FetchKeeps(input, order, v0, c);
      ghost var d := Fetch(input, c);
      var shift, yyn;
      yychar, yylval, pos, shift, yyn := YyBackup(input, yystate, yychar, yylval, pos, v.haveTime, c);
      if shift {
        yyssp, yystate, c := YyShiftStep(input, yyn, yyss, yyvs, yyssp, order, v0, c, yychar, yylval, pos);
        yychar := YYEMPTY;
      } else if yyn == 0 {
        RunRejects(input, order, v0, c);
        StatesInTable(ss);
        yyresult := YyRecover(yyss, yyssp);
        return;
      } else {
        yyssp, yystate, c := YyReduceStep(input, yyn, yyss, yyvs, yyssp, order, v, v0, c, yychar, yylval, pos);
      }
    }
  }
}
