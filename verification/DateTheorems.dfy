/**
 What the parser guarantees on every input, of any length: what it accepts is derivable, its effects are those
 of the complete items it has read, and between items the record satisfies the boundary invariant.
 */
module DateTheorems {
  import opened Options
  import opened DateTables
  import opened DateGrammar
  import opened DateAutomaton
  import opened DateActions
  import opened DateMachine

  // The run ends in a consistent configuration: the final state, or a state that reports an error.
  lemma {:induction false} RunEnds(input: seq<Lexeme>, order: int, v0: Vars, c: Config)
    requires LexerOutput(input) && Consistent(input, order, v0, c)
    ensures var o := Run(input, order, v0, c);
            && Consistent(input, order, v0, o.at)
            && (o.Accepted? ==> o.at.Top() == YYFINAL)
            && (o.Rejected? ==> ErrorState(o.at.Top())
                                && (o.at.Top() == 1 ==> o.at.look.Some? && o.at.look != Some(EOF)))
    decreases |input| + 1 - |c.shifted|, Rank(c.Top())
  {
    hide Act;
    if c.Top() != YYFINAL {
      FetchKeeps(input, order, v0, c);
      var d := Fetch(input, c);
      match Decision(d)
      case Shift(q) =>
        DecisionIsAction(d);
        ShiftProperties(d.Top(), d.look.value.sym);
        PushKeeps(input, order, v0, d, q);
        RunEnds(input, order, v0, Push(d, q));
      case Reduce(r) =>
        ReducesAsDecided(d);
        HandleOnTop(d.states, r);
        GotoIsNonterminal(r);
        PopStates(d, r, order);
        PopKeeps(input, order, v0, d, r);
        PopKeepsLook(d, r, order);
        RunEnds(input, order, v0, Pop(d, r, order));
      case SyntaxError =>
        ErrorIsFound(d);
    }
  }

  lemma ErrorIsFound(c: Config)
    requires c.states != [] && 0 <= c.Top() < 63 && c.Top() != YYFINAL
    requires Yypact(c.Top()) != YYPACT_NINF ==> c.look.Some? && 0 <= c.look.value.sym < YYNTOKENS
    requires Decision(c).SyntaxError?
    ensures ErrorState(c.Top()) && (c.Top() == 1 ==> c.look.Some? && c.look != Some(EOF))
  {
    DecisionIsAction(c);
    ErrorProperties(c.Top(), if Yypact(c.Top()) == YYPACT_NINF then END else c.look.value.sym);
  }

  // States inside an unfinished item, from which nothing has been recorded yet
  predicate Unfinished(s: int) {
    s == 6 || s == 8 || s == 23 || s == 29 || s == 40 || s == 42 || 44 <= s <= 46
    || 49 <= s <= 51 || s == 56 || s == 58 || s == 59
  }

  lemma UnfinishedIsSilent(s: int)
    requires Unfinished(s)
    ensures Silent(Yystos(s)) && Yystos(s) != O_MERID
  {
  }

  lemma {:induction false} ErrorStack(ss: seq<int>)
    requires Linked(ss) && |ss| > 1 && (ss[|ss| - 1] == 1 || Unfinished(ss[|ss| - 1]))
    ensures ss[1] == 1
    ensures forall i :: 2 <= i < |ss| ==> Unfinished(ss[i])
    decreases |ss|
  {
    assert EdgeInto(ss, |ss| - 1);
    if ss[|ss| - 1] != 1 {
      assert |ss| > 2;
      LinkedBelow(ss);
      ErrorStack(ss[..|ss| - 1]);
    }
  }

  // When an error is found, the trees above the spec have no effect; each yields a token.
  lemma RejectedShape(input: seq<Lexeme>, order: int, v0: Vars, c: Config)
    requires Consistent(input, order, v0, c) && ErrorState(c.Top())
    ensures |c.trees| > 0 && WellFormed(c.trees[0]) && Root(c.trees[0]) == SPEC
    ensures c.vars == Effect(c.trees[0], v0, order)
    ensures YieldAll(c.trees) == Yield(c.trees[0]) + YieldAll(c.trees[1..])
    ensures |c.trees| > 1 ==> YieldAll(c.trees[1..]) != []
    ensures c.Top() == 1 <==> |c.trees| == 1
  {
    hide Consistent, WellFormed, Root, Silent, EffectAll, Effect, YieldAll, Yield, ErrorState;
    ErrorTrees(input, order, v0, c);
    var spec, rest := c.trees[0], c.trees[1..];
    assert c.trees == [spec] + rest;
    YieldAllConcat([spec], rest);
    YieldOne(spec);
    EffectAllConcat([spec], rest, v0, order);
    EffectAllOne(spec, v0, order);
    SilentAllHaveNoEffect(rest, Effect(spec, v0, order), order);
    if rest != [] {
      var last := |rest| - 1;
      SilentHasNoEffect(rest[last], v0, order);
      YieldAllSnoc(rest[..last], rest[last]);
      assert rest == rest[..last] + [rest[last]];
    }
  }

  // At an error the spec is at the bottom, and what is above it is silent.
  lemma ErrorTrees(input: seq<Lexeme>, order: int, v0: Vars, c: Config)
    requires Consistent(input, order, v0, c) && ErrorState(c.Top())
    ensures |c.trees| > 0 && WellFormed(c.trees[0]) && Root(c.trees[0]) == SPEC
    ensures forall i :: 1 <= i < |c.trees| ==>
              WellFormed(c.trees[i]) && Silent(Root(c.trees[i])) && Root(c.trees[i]) != O_MERID
    ensures YieldAll(c.trees) == c.shifted && c.vars == EffectAll(c.trees, v0, order)
    ensures c.Top() == 1 <==> |c.trees| == 1
  {
    hide EffectAll, YieldAll, WellFormed, Root, Silent, Yystos;
    var ss := c.states;
    ErrorStack(ss);
    SpecSymbol();
    assert Root(c.trees[0]) == Yystos(ss[1]);
    forall i | 1 <= i < |c.trees|
      ensures WellFormed(c.trees[i]) && Silent(Root(c.trees[i])) && Root(c.trees[i]) != O_MERID
    {
      assert Unfinished(ss[i + 1]);
      UnfinishedIsSilent(ss[i + 1]);
      assert Root(c.trees[i]) == Yystos(ss[i + 1]);
    }
  }

  lemma SpecSymbol()
    ensures Yystos(1) == SPEC
  {
  }

  // When the input is accepted, the stack holds the spec and the end of input.
  lemma AcceptedShape(input: seq<Lexeme>, order: int, v0: Vars, c: Config)
    requires Consistent(input, order, v0, c) && c.Top() == YYFINAL
    ensures |c.trees| == 2 && WellFormed(c.trees[0]) && Root(c.trees[0]) == SPEC
    ensures c.vars == Effect(c.trees[0], v0, order)
    ensures c.shifted == Yield(c.trees[0]) + [EOF] && |c.shifted| == |input| + 1
  {
    var ss := c.states;
    TopEdges(ss);
    assert |ss| == 3 && ss[1] == 1 && ss[2] == YYFINAL;
    var spec, end := c.trees[0], c.trees[1];
    assert Root(spec) == Yystos(ss[1]) == SPEC && Root(end) == Yystos(ss[2]) == END;
    assert c.trees == [spec] + [end];
    EndIsLeaf(end);
    YieldOne(spec);
    YieldAllSnoc([spec], end);
    EffectAllOne(spec, v0, order);
    EffectAllSnoc([spec], end, v0, order);
    var n := |c.shifted| - 1;
    assert c.shifted[n] == end.tok && TokenAt(input, n, c.shifted[n]);
  }

  lemma EndIsLeaf(t: Tree)
    requires WellFormed(t) && Root(t) == END
    ensures t.Leaf?
  {
  }

  // The spec at the bottom has all the effects, and yields what the input has been read as.
  ghost predicate SpecAtBottom(input: seq<Lexeme>, order: int, v0: Vars, c: Config, accepted: bool) {
    && c.trees != [] && WellFormed(c.trees[0]) && Root(c.trees[0]) == SPEC
    && c.vars == Effect(c.trees[0], v0, order)
    && Reads(input, Yield(c.trees[0])) && Yield(c.trees[0]) <= c.shifted
    && (accepted <==> |Yield(c.trees[0])| == |input|)
  }

  // The tokens are what the lexer returns for the start of the input.
  predicate Reads(input: seq<Lexeme>, toks: seq<Token>) {
    |toks| <= |input| && forall i :: 0 <= i < |toks| ==> LexedAs(input[i], toks[i])
  }

  lemma ShiftedIsRead(input: seq<Lexeme>, shifted: seq<Token>, n: nat)
    requires forall i :: 0 <= i < |shifted| ==> TokenAt(input, i, shifted[i])
    requires n <= |shifted| && n <= |input|
    ensures Reads(input, shifted[..n])
  {
    forall i | 0 <= i < n
      ensures LexedAs(input[i], shifted[..n][i])
    {
      assert TokenAt(input, i, shifted[i]);
    }
  }

  lemma AcceptedSpec(input: seq<Lexeme>, order: int, v0: Vars, c: Config)
    requires Consistent(input, order, v0, c) && c.Top() == YYFINAL
    ensures SpecAtBottom(input, order, v0, c, true)
  {
    AcceptedShape(input, order, v0, c);
    ShiftedIsRead(input, c.shifted, |input|);
    assert c.shifted[..|input|] == Yield(c.trees[0]);
  }

  lemma RejectedSpec(input: seq<Lexeme>, order: int, v0: Vars, c: Config)
    requires Consistent(input, order, v0, c) && ErrorState(c.Top())
    requires c.Top() == 1 ==> c.look.Some? && c.look != Some(EOF)
    ensures SpecAtBottom(input, order, v0, c, false)
  {
    hide EffectAll, Effect, Yield, YieldAll, WellFormed, Root, LexedAs, Edge, Yystos;
    RejectedShape(input, order, v0, c);
    if c.Top() == 1 {
      assert TokenAt(input, |c.shifted|, c.look.value);
    }
    ShiftedIsRead(input, c.shifted, |Yield(c.trees[0])|);
    assert c.shifted[..|Yield(c.trees[0])|] == Yield(c.trees[0]);
  }

  lemma ParseSpec(input: seq<Lexeme>, order: int, v0: Vars)
    requires LexerOutput(input)
    ensures var o := Parse(input, order, v0); SpecAtBottom(input, order, v0, o.at, o.Accepted?)
  {
    hide Act, Edge, Yystos, SpecAtBottom;
    StartIsConsistent(input, order, v0);
    RunEnds(input, order, v0, Start(v0));
    var o := Run(input, order, v0, Start(v0));
    if o.Accepted? {
      AcceptedSpec(input, order, v0, o.at);
    } else {
      RejectedSpec(input, order, v0, o.at);
    }
  }

  /**
   The record v results from the items, read from the start of the input and evaluated one after the other;
   accepted means that the items are the whole input.
   */
  ghost predicate Explains(input: seq<Lexeme>, order: int, v0: Vars, items: seq<Tree>, accepted: bool, v: Vars) {
    && (forall i :: 0 <= i < |items| ==> WellFormed(items[i]) && Root(items[i]) == ITEM)
    && Reads(input, YieldAll(items))
    && v == EffectAll(items, v0, order)
    && (accepted <==> |YieldAll(items)| == |input|)
  }

  // On every input the effects of the parse are those of complete items, which are all of it if it is accepted.
  lemma ParseIsFoldOverItems(input: seq<Lexeme>, order: int, v0: Vars)
    requires LexerOutput(input)
    ensures var o := Parse(input, order, v0);
            && o.at.trees != [] && Explains(input, order, v0, Items(o.at.trees[0]), o.Accepted?, o.at.vars)
            && YieldAll(Items(o.at.trees[0])) <= o.at.shifted
  {
    ParseSpec(input, order, v0);
    var spec := Parse(input, order, v0).at.trees[0];
    hide Run, Act, Parse;
    SpecIsItems(spec);
    SpecEffectIsFold(spec, v0, order);
  }

  /**
   The times seen when each token was read that is shifted from a configuration on; time is that of the lookahead,
   if there is one. A reduction between reading and shifting may record another time, which the token ignores.
   */
  ghost function TimesAtFetch(input: seq<Lexeme>, order: int, v0: Vars, c: Config, time: int): seq<int>
    requires LexerOutput(input) && Consistent(input, order, v0, c)
    decreases |input| + 1 - |c.shifted|, Rank(c.Top())
  {
    if c.Top() == YYFINAL then [] else
    FetchKeeps(input, order, v0, c);
    var d := Fetch(input, c);
    var time' := if c.look.None? then c.vars.haveTime else time;
    match Decision(d)
    case Shift(q) =>
      DecisionIsAction(d);
      ShiftProperties(d.Top(), d.look.value.sym);
      PushKeeps(input, order, v0, d, q);
      [time'] + TimesAtFetch(input, order, v0, Push(d, q), 0)
    case Reduce(r) =>
      ReducesAsDecided(d);
      HandleOnTop(d.states, r);
      GotoIsNonterminal(r);
      PopStates(d, r, order);
      PopKeeps(input, order, v0, d, r);
      TimesAtFetch(input, order, v0, Pop(d, r, order), time')
    case SyntaxError => []
  }

  // What the lexer returns for lexeme i at this time
  function ReadAt(input: seq<Lexeme>, i: nat, time: int): Token {
    if i < |input| then LexToken(input[i], time) else EOF
  }

  // The tokens from position n on are those read at these times.
  predicate ReadAtTimes(input: seq<Lexeme>, n: nat, toks: seq<Token>, times: seq<int>) {
    |toks| == |times| && forall i :: 0 <= i < |toks| ==> toks[i] == ReadAt(input, n + i, times[i])
  }

  predicate LookRead(input: seq<Lexeme>, c: Config, time: int) {
    c.look.Some? ==> c.look.value == ReadAt(input, |c.shifted|, time)
  }

  lemma FetchReads(input: seq<Lexeme>, c: Config, time: int)
    requires c.states != [] && 0 <= c.Top() < 63 && |c.shifted| <= |input| && LookRead(input, c, time)
    ensures LookRead(input, Fetch(input, c), if c.look.None? then c.vars.haveTime else time)
  {
  }

  // From here on the tokens shifted are those read at the times recorded.
  ghost predicate ShiftsAsRead(input: seq<Lexeme>, order: int, v0: Vars, c: Config, times: seq<int>)
    requires LexerOutput(input) && Consistent(input, order, v0, c)
  {
    var shifted := Run(input, order, v0, c).at.shifted;
    c.shifted <= shifted && ReadAtTimes(input, |c.shifted|, shifted[|c.shifted|..], times)
  }

  lemma OneMoreRead(input: seq<Lexeme>, n: nat, shifted: seq<Token>, time: int, times: seq<int>)
    requires n < |shifted| && shifted[n] == ReadAt(input, n, time)
    requires ReadAtTimes(input, n + 1, shifted[n + 1..], times)
    ensures ReadAtTimes(input, n, shifted[n..], [time] + times)
  {
    var toks, all := shifted[n..], [time] + times;
    forall i | 0 <= i < |toks| ensures toks[i] == ReadAt(input, n + i, all[i]) {
      if i > 0 {
        assert toks[i] == shifted[n + 1..][i - 1];
      }
    }
  }

  lemma ShiftedNext(input: seq<Lexeme>, order: int, v0: Vars, c: Config, d: Config, q: int, time: int, times: seq<int>)
    requires LexerOutput(input) && Consistent(input, order, v0, c) && d.look.Some? && c.shifted == d.shifted
    requires LookRead(input, d, time)
    requires Consistent(input, order, v0, Push(d, q)) && Run(input, order, v0, c) == Run(input, order, v0, Push(d, q))
    requires ShiftsAsRead(input, order, v0, Push(d, q), times)
    ensures ShiftsAsRead(input, order, v0, c, [time] + times)
  {
    hide Run, Consistent;
    var shifted, n := Run(input, order, v0, c).at.shifted, |c.shifted|;
    assert shifted[n] == Push(d, q).shifted[n] == d.look.value;
    OneMoreRead(input, n, shifted, time, times);
  }

  lemma {:induction false} ReadingsAreThoseAtFetch(input: seq<Lexeme>, order: int, v0: Vars, c: Config, time: int)
    requires LexerOutput(input) && Consistent(input, order, v0, c) && LookRead(input, c, time)
    ensures ShiftsAsRead(input, order, v0, c, TimesAtFetch(input, order, v0, c, time))
    decreases |input| + 1 - |c.shifted|, Rank(c.Top())
  {
    hide Act, LookRead;
    if c.Top() != YYFINAL {
      FetchKeeps(input, order, v0, c);
      FetchReads(input, c, time);
      var d := Fetch(input, c);
      var time' := if c.look.None? then c.vars.haveTime else time;
      match Decision(d)
      case Shift(q) =>
        RunShifts(input, order, v0, c, q);
        NoLookRead(input, Push(d, q));
        ReadingsAreThoseAtFetch(input, order, v0, Push(d, q), 0);
        ShiftedNext(input, order, v0, c, d, q, time', TimesAtFetch(input, order, v0, Push(d, q), 0));
      case Reduce(r) =>
        RunReduces(input, order, v0, c, r);
        PopLookRead(input, d, r, order, time');
        ReadingsAreThoseAtFetch(input, order, v0, Pop(d, r, order), time');
      case SyntaxError =>
        RunRejects(input, order, v0, c);
    }
  }

  lemma NoLookRead(input: seq<Lexeme>, c: Config)
    requires c.look.None?
    ensures LookRead(input, c, 0)
  {
  }

  lemma PopLookRead(input: seq<Lexeme>, c: Config, r: int, order: int, time: int)
    requires 2 <= r < 52 && Handle(c.states, r) && |c.trees| + 1 == |c.states| && SPEC <= Yyr1(r)
    requires LookRead(input, c, time)
    ensures LookRead(input, Pop(c, r, order), time) && Pop(c, r, order).shifted == c.shifted
  {
    hide Act;
  }

  // Soundness of the tables: the tokens that were read from an accepted input, each letter T as the times seen at that
  // point make it, are a sentence of the grammar.
  lemma AcceptedIsDerivable(input: seq<Lexeme>, order: int, v0: Vars)
    requires LexerOutput(input) && Parse(input, order, v0).Accepted?
    ensures Consistent(input, order, v0, Start(v0))
    ensures var toks := Parse(input, order, v0).at.shifted;
            && |toks| == |input| + 1 && Derives(SPEC, toks[..|input|])
            && ReadAtTimes(input, 0, toks, TimesAtFetch(input, order, v0, Start(v0), 0))
  {
    hide Act, Edge, Yystos;
    StartIsConsistent(input, order, v0);
    RunEnds(input, order, v0, Start(v0));
    ReadingsAreThoseAtFetch(input, order, v0, Start(v0), 0);
    var c := Parse(input, order, v0).at;
    assert c.shifted[0..] == c.shifted;
    hide Run, TimesAtFetch, ReadAtTimes;
    AcceptedShape(input, order, v0, c);
    assert c.shifted[..|input|] == Yield(c.trees[0]);
    assert Derives(SPEC, Yield(c.trees[0]));
  }

  // Whenever the parser is back between items, the record satisfies the boundary invariant, ...
  lemma BoundaryBetweenItems(input: seq<Lexeme>, order: int, v0: Vars, c: Config)
    requires Consistent(input, order, v0, c) && c.Top() == 1 && Initial(v0)
    ensures Boundary(v0, c.vars)
  {
    RejectedShape(input, order, v0, c);
    SpecIsItems(c.trees[0]);
    SpecEffectIsFold(c.trees[0], v0, order);
    ItemsKeepBoundary(Items(c.trees[0]), v0, order);
  }

  // ... and so does the record the parse leaves behind, accepted or not.
  lemma BoundaryAfterParse(input: seq<Lexeme>, order: int, v0: Vars)
    requires LexerOutput(input) && Initial(v0)
    ensures Boundary(v0, Parse(input, order, v0).at.vars)
  {
    ParseIsFoldOverItems(input, order, v0);
    ItemsKeepBoundary(Items(Parse(input, order, v0).at.trees[0]), v0, order);
  }
}
