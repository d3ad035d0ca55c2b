/**
 The parser as a machine on values: one step per pass through yybackup, with the derivation trees of the
 stacked symbols beside the stack of states.  The imperative driver is proved equal to its run.
 */
module DateMachine {
  import opened Options
  import opened DateTables
  import opened DateGrammar
  import opened DateAutomaton
  import opened DateActions

  /**
   states: the state stack, bottom first; trees: a derivation for every state but the bottom one;
   look: the lookahead, if one has been read; shifted: the tokens consumed; vars: the record now.
   */
  datatype Config = Config(
    states: seq<int>, trees: seq<Tree>, look: Option<Token>, shifted: seq<Token>, vars: Vars)
  {
    function Top(): int
      requires states != []
    {
      states[|states| - 1]
    }
  }

  const EOF := Token(END, Number(0))

  function Start(v: Vars): Config {
    Config([0], [], None, [], v)
  }

  // Token i of the input, with the end of input after the last one
  predicate TokenAt(input: seq<Lexeme>, i: nat, t: Token) {
    if i < |input| then LexedAs(input[i], t) && END < t.sym < YYNTOKENS else i == |input| && t == EOF
  }

  // Every state above the bottom carries a derivation of its accessing symbol.
  ghost predicate Labelled(states: seq<int>, trees: seq<Tree>) {
    && |trees| + 1 == |states|
    && (forall i :: 1 <= i < |states| ==> 0 <= states[i] < 63)
    && (forall i :: 0 <= i < |trees| ==> WellFormed(trees[i]) && Root(trees[i]) == Yystos(states[i + 1]))
  }

  ghost predicate Consistent(input: seq<Lexeme>, order: int, v0: Vars, c: Config) {
    && Linked(c.states)
    && Labelled(c.states, c.trees)
    && YieldAll(c.trees) == c.shifted
    && (forall i :: 0 <= i < |c.shifted| ==> TokenAt(input, i, c.shifted[i]))
    && (c.look.Some? ==> TokenAt(input, |c.shifted|, c.look.value))
    && c.vars == EffectAll(c.trees, v0, order)
    && (c.Top() != YYFINAL ==> |c.shifted| <= |input|)
  }

  // Read a lookahead if the state needs one and there is none.
  function Fetch(input: seq<Lexeme>, c: Config): Config
    requires c.states != [] && 0 <= c.Top() < 63 && |c.shifted| <= |input|
  {
    if Yypact(c.Top()) == YYPACT_NINF || c.look.Some? then c
    else if |c.shifted| == |input| then c.(look := Some(EOF))
    else c.(look := Some(LexToken(input[|c.shifted|], c.vars.haveTime)))
  }

  // What the state does; a state without an entry in Yytable acts without a lookahead.
  function Decision(c: Config): Move
    requires c.states != [] && 0 <= c.Top() < 63
    requires Yypact(c.Top()) != YYPACT_NINF ==> c.look.Some? && 0 <= c.look.value.sym < YYNTOKENS
  {
    if Yypact(c.Top()) == YYPACT_NINF then DefaultMove(c.Top()) else Action(c.Top(), c.look.value.sym)
  }

  function Push(c: Config, q: int): Config
    requires c.look.Some?
  {
    Config(c.states + [q], c.trees + [Leaf(c.look.value)], None, c.shifted + [c.look.value], c.vars)
  }

  function Pop(c: Config, r: int, order: int): Config
    requires 2 <= r < 52 && Handle(c.states, r) && |c.trees| + 1 == |c.states|
    requires SPEC <= Yyr1(r)
  {
    var n := |Rhs(r)|;
    var states, kids := c.states[..|c.states| - n], c.trees[|c.trees| - n..];
    c.(states := states + [Goto(states[|states| - 1], Yyr1(r))],
       trees := c.trees[..|c.trees| - n] + [Node(r, kids)],
       vars := Act(r, Vals(kids), c.vars, order))
  }

  lemma FetchKeeps(input: seq<Lexeme>, order: int, v0: Vars, c: Config)
    requires LexerOutput(input) && Consistent(input, order, v0, c) && c.Top() != YYFINAL
    ensures var d := Fetch(input, c);
            && Consistent(input, order, v0, d) && d.states == c.states && d.shifted == c.shifted
            && (Yypact(d.Top()) != YYPACT_NINF ==> d.look.Some? && 0 <= d.look.value.sym < YYNTOKENS)
  {
    if |c.shifted| < |input| {
      LexTokenProperties(input[|c.shifted|], c.vars.haveTime);
      LexTokenDependsOnZero(input[|c.shifted|], c.vars.haveTime);
    }
  }

  lemma LexTokenDependsOnZero(x: Lexeme, haveTime: int)
    ensures LexToken(x, haveTime) == LexToken(x, if haveTime == 0 then 0 else 1)
  {
  }

  // Reading a lookahead changes nothing else.
  lemma FetchFrame(input: seq<Lexeme>, c: Config)
    requires c.states != [] && 0 <= c.Top() < 63 && |c.shifted| <= |input|
    ensures var d := Fetch(input, c);
            d.states == c.states && d.trees == c.trees && d.shifted == c.shifted && d.vars == c.vars
  {
    hide Yypact, LexToken;
  }

  lemma StackOf(input: seq<Lexeme>, order: int, v0: Vars, c: Config)
    requires Consistent(input, order, v0, c)
    ensures c.states != [] && 0 <= c.Top() < 63 && |c.states| == |c.trees| + 1
    ensures c.Top() != YYFINAL ==> |c.shifted| <= |input|
  {
    hide EffectAll, YieldAll, Edge;
  }

  // Decisions without a lookahead are Actions on any token.
  lemma DecisionIsAction(c: Config)
    requires c.states != [] && 0 <= c.Top() < 63
    requires Yypact(c.Top()) != YYPACT_NINF ==> c.look.Some? && 0 <= c.look.value.sym < YYNTOKENS
    ensures Yypact(c.Top()) == YYPACT_NINF ==> Decision(c) == Action(c.Top(), END)
    ensures Decision(c) != DefaultMove(c.Top()) ==> c.look.Some?
    ensures Decision(c).Shift? ==> c.look.Some?
  {
  }

  // Replacing the top n states by one that fits on the state below them
  lemma ReplaceTop(ss: seq<int>, n: nat, g: int)
    requires Linked(ss) && n < |ss| && 1 <= g < 63 && Edge(ss[|ss| - n - 1], g)
    ensures Linked(ss[..|ss| - n] + [g])
  {
    var tt := ss[..|ss| - n] + [g];
    forall i | 0 < i < |tt|
      ensures EdgeInto(tt, i) && 1 <= tt[i] < 63
    {
      if i < |ss| - n {
        assert EdgeInto(ss, i);
      }
    }
  }

  lemma ReplaceTopTrees(ss: seq<int>, ts: seq<Tree>, n: nat, g: int, t: Tree)
    requires Labelled(ss, ts) && n < |ss| && 1 <= g < 63 && WellFormed(t) && Root(t) == Yystos(g)
    ensures Labelled(ss[..|ss| - n] + [g], ts[..|ts| - n] + [t])
  {
  }

  // Shifting the lookahead by entering a state for it
  lemma PushKeeps(input: seq<Lexeme>, order: int, v0: Vars, c: Config, q: int)
    requires Consistent(input, order, v0, c) && c.Top() != YYFINAL && c.look.Some?
    requires 2 <= q < 63 && Edge(c.Top(), q) && Yystos(q) == c.look.value.sym
    ensures Consistent(input, order, v0, Push(c, q))
  {
    hide Linked, Labelled, EffectAll, YieldAll, Yystos, Edge;
    assert TokenAt(input, |c.shifted|, c.look.value);
    EndIsFinal(q);
    PushStates(c, q);
    PushTrees(c, q, v0, order);
    PushShifted(input, c, q);
  }

  lemma PushShifted(input: seq<Lexeme>, c: Config, q: int)
    requires c.look.Some? && TokenAt(input, |c.shifted|, c.look.value) && |c.shifted| <= |input|
    requires forall i :: 0 <= i < |c.shifted| ==> TokenAt(input, i, c.shifted[i])
    requires 2 <= q < 63 && Yystos(q) == c.look.value.sym
    ensures var d := Push(c, q);
            && (forall i :: 0 <= i < |d.shifted| ==> TokenAt(input, i, d.shifted[i]))
            && d.Top() == q && (q != YYFINAL ==> |d.shifted| <= |input|)
  {
    EndIsFinal(q);
  }

  lemma PushStates(c: Config, q: int)
    requires Linked(c.states) && Labelled(c.states, c.trees) && c.look.Some?
    requires 2 <= q < 63 && Edge(c.Top(), q) && 0 <= Yystos(q) == c.look.value.sym < YYNTOKENS
    ensures var d := Push(c, q); Linked(d.states) && Labelled(d.states, d.trees)
  {
    ReplaceTop(c.states, 0, q);
    ReplaceTopTrees(c.states, c.trees, 0, q, Leaf(c.look.value));
    assert c.states[..|c.states|] == c.states && c.trees[..|c.trees|] == c.trees;
  }

  lemma PushTrees(c: Config, q: int, v0: Vars, order: int)
    requires c.look.Some? && YieldAll(c.trees) == c.shifted && c.vars == EffectAll(c.trees, v0, order)
    ensures var d := Push(c, q); YieldAll(d.trees) == d.shifted && d.vars == EffectAll(d.trees, v0, order)
  {
    YieldAllSnoc(c.trees, Leaf(c.look.value));
    EffectAllSnoc(c.trees, Leaf(c.look.value), v0, order);
  }

  lemma EndIsFinal(q: int)
    requires 2 <= q < 63
    ensures Yystos(q) == END <==> q == YYFINAL
  {
  }

  // The trees under a handle make a derivation by its rule, ...
  lemma NodeOfHandle(ss: seq<int>, ts: seq<Tree>, r: int)
    requires 2 <= r < 52 && Labelled(ss, ts) && Handle(ss, r)
    ensures WellFormed(Node(r, ts[|ts| - |Rhs(r)|..]))
  {
    hide WellFormed, Root, Rhs, Yystos, Uncovers;
    var n, m := |Rhs(r)|, |ss|;
    var kids := ts[|ts| - n..];
    forall i | 0 <= i < n
      ensures WellFormed(kids[i]) && Root(kids[i]) == Rhs(r)[i]
    {
      assert kids[i] == ts[m - 1 - n + i];
      assert Yystos(ss[m - n + i]) == Rhs(r)[i];
    }
    NodeIsWellFormed(r, kids);
  }

  lemma NodeIsWellFormed(r: int, kids: seq<Tree>)
    requires 2 <= r < 52 && |kids| == |Rhs(r)|
    requires forall i :: 0 <= i < |kids| ==> WellFormed(kids[i]) && Root(kids[i]) == Rhs(r)[i]
    ensures WellFormed(Node(r, kids))
  {
    hide Root, Rhs;
  }

  // ... with the same yield, and the effect of the rule's action after theirs.
  lemma ReduceTrees(ts: seq<Tree>, n: nat, r: int, v: Vars, order: int)
    requires 2 <= r < 52 && n == |Rhs(r)| <= |ts|
    ensures var kids, us := ts[|ts| - n..], ts[..|ts| - n] + [Node(r, ts[|ts| - n..])];
            && YieldAll(us) == YieldAll(ts)
            && EffectAll(us, v, order) == Act(r, Vals(kids), EffectAll(ts, v, order), order)
  {
    var base, kids := ts[..|ts| - n], ts[|ts| - n..];
    assert ts == base + kids;
    YieldAllConcat(base, kids);
    YieldAllSnoc(base, Node(r, kids));
    EffectAllConcat(base, kids, v, order);
    EffectAllSnoc(base, Node(r, kids), v, order);
  }

  lemma GotoIsNonterminal(r: int)
    requires 2 <= r < 52
    ensures SPEC <= Yyr1(r)
  {
  }

  lemma PopStates(c: Config, r: int, order: int)
    requires Linked(c.states) && |c.trees| + 1 == |c.states| && Reduces(c.Top(), r)
    requires Handle(c.states, r) && SPEC <= Yyr1(r)
    ensures var d := Pop(c, r, order);
            Linked(d.states) && d.Top() != YYFINAL && Yystos(d.Top()) == Yyr1(r) && Rank(d.Top()) < Rank(c.Top())
  {
    hide Act, Edge, Yydefact, Rhs, Linked, Handle, Goto, Rank, Yystos;
    var g := Uncovered(c.states, r);
    ReplaceTop(c.states, |Rhs(r)|, g);
    PopAsReplacement(c, r, g, order);
  }

  lemma PopTrees(c: Config, r: int, order: int)
    requires Linked(c.states) && Labelled(c.states, c.trees) && Reduces(c.Top(), r)
    requires Handle(c.states, r) && SPEC <= Yyr1(r)
    ensures var d := Pop(c, r, order); Labelled(d.states, d.trees)
  {
    hide Act, Edge, Rank, Yydefact, Yystos, Rhs, Goto, Linked, Uncovers;
    var g := Uncovered(c.states, r);
    NodeOfHandle(c.states, c.trees, r);
    ReplaceTopTrees(c.states, c.trees, |Rhs(r)|, g, Node(r, c.trees[|c.trees| - |Rhs(r)|..]));
    hide Labelled, Handle, WellFormed;
    PopAsReplacement(c, r, g, order);
  }

  lemma PopMeaning(c: Config, r: int, v0: Vars, order: int)
    requires 2 <= r < 52 && |c.trees| + 1 == |c.states| && Handle(c.states, r) && SPEC <= Yyr1(r)
    requires YieldAll(c.trees) == c.shifted && c.vars == EffectAll(c.trees, v0, order)
    ensures var d := Pop(c, r, order); YieldAll(d.trees) == d.shifted && d.vars == EffectAll(d.trees, v0, order)
  {
    hide Act, Goto, YieldAll, EffectAll;
    ReduceTrees(c.trees, |Rhs(r)|, r, v0, order);
  }

  lemma PopKeeps(input: seq<Lexeme>, order: int, v0: Vars, c: Config, r: int)
    requires Consistent(input, order, v0, c) && c.Top() != YYFINAL && Reduces(c.Top(), r)
    requires Handle(c.states, r) && SPEC <= Yyr1(r)
    ensures Consistent(input, order, v0, Pop(c, r, order))
  {
    PopStates(c, r, order);
    PopTrees(c, r, order);
    PopMeaning(c, r, v0, order);
    hide Pop, Act;
    PopKeepsLook(c, r, order);
    ReplacementKeeps(input, order, v0, c, Pop(c, r, order));
  }

  lemma PopAsReplacement(c: Config, r: int, g: int, order: int)
    requires 2 <= r < 52 && Handle(c.states, r) && |c.trees| + 1 == |c.states| && SPEC <= Yyr1(r)
    requires g == Goto(c.states[|c.states| - |Rhs(r)| - 1], Yyr1(r))
    ensures var d, n := Pop(c, r, order), |Rhs(r)|;
            && d.states == c.states[..|c.states| - n] + [g]
            && d.trees == c.trees[..|c.trees| - n] + [Node(r, c.trees[|c.trees| - n..])]
  {
    hide Act, Goto, Yyr1, Rhs, Yystos, Uncovers;
    var n := |c.states| - |Rhs(r)|;
    assert c.states[..n][n - 1] == c.states[n - 1];
  }

  lemma PopVars(c: Config, r: int, order: int)
    requires 2 <= r < 52 && Handle(c.states, r) && |c.trees| + 1 == |c.states| && SPEC <= Yyr1(r)
    ensures Pop(c, r, order).vars == Act(r, Vals(c.trees[|c.trees| - |Rhs(r)|..]), c.vars, order)
  {
    hide Act, Rhs, Goto, Yystos, Uncovers;
  }

  lemma PopKeepsLook(c: Config, r: int, order: int)
    requires 2 <= r < 52 && Handle(c.states, r) && |c.trees| + 1 == |c.states| && SPEC <= Yyr1(r)
    ensures var d := Pop(c, r, order); d.look == c.look && d.shifted == c.shifted
  {
    hide Act;
  }

  lemma ReplacementKeeps(input: seq<Lexeme>, order: int, v0: Vars, c: Config, d: Config)
    requires Consistent(input, order, v0, c) && c.Top() != YYFINAL
    requires Linked(d.states) && Labelled(d.states, d.trees)
    requires d.look == c.look && d.shifted == c.shifted
    requires YieldAll(d.trees) == d.shifted && d.vars == EffectAll(d.trees, v0, order)
    ensures Consistent(input, order, v0, d)
  {
  }

  // The state entered by a reduction: it fits where it goes, and has a smaller rank.
  lemma Uncovered(ss: seq<int>, r: int) returns (g: int)
    requires Linked(ss) && Reduces(ss[|ss| - 1], r)
    ensures Handle(ss, r) && SPEC <= Yyr1(r)
    ensures g == Goto(ss[|ss| - |Rhs(r)| - 1], Yyr1(r)) && 1 <= g < 63 && g != YYFINAL
    ensures Edge(ss[|ss| - |Rhs(r)| - 1], g) && Yystos(g) == Yyr1(r) && Rank(g) < Rank(ss[|ss| - 1])
  {
    HandleOnTop(ss, r);
    var b := ss[|ss| - |Rhs(r)| - 1];
    if 44 <= r <= 46 {
      assert |Rhs(r)| == 1 && EdgeInto(ss, |ss| - 1);
    }
    GotoProperties(ss[|ss| - 1], r, b);
    g := Goto(b, Yyr1(r));
  }

  // One pass: accept, reject, or go on in a new configuration.
  datatype Outcome = Accepted(at: Config) | Rejected(at: Config)

  ghost function Run(input: seq<Lexeme>, order: int, v0: Vars, c: Config): (o: Outcome)
    requires LexerOutput(input) && Consistent(input, order, v0, c)
    decreases |input| + 1 - |c.shifted|, Rank(c.Top())
  {
    if c.Top() == YYFINAL then Accepted(c) else
    FetchKeeps(input, order, v0, c);
    var d := Fetch(input, c);
    match Decision(d)
    case Shift(q) =>
      DecisionIsAction(d);
      ShiftProperties(d.Top(), d.look.value.sym);
      PushKeeps(input, order, v0, d, q);
      Run(input, order, v0, Push(d, q))
    case Reduce(r) =>
      ReducesAsDecided(d);
      HandleOnTop(d.states, r);
      GotoIsNonterminal(r);
      PopStates(d, r, order);
      PopKeeps(input, order, v0, d, r);
      Run(input, order, v0, Pop(d, r, order))
    case SyntaxError => Rejected(d)
  }

  lemma ReducesAsDecided(c: Config)
    requires c.states != [] && 0 <= c.Top() < 63 && c.Top() != YYFINAL
    requires Yypact(c.Top()) != YYPACT_NINF ==> c.look.Some? && 0 <= c.look.value.sym < YYNTOKENS
    requires Decision(c).Reduce?
    ensures Reduces(c.Top(), Decision(c).rule)
  {
    DecisionIsAction(c);
    ReduceProperties(c.Top(), if Yypact(c.Top()) == YYPACT_NINF then END else c.look.value.sym);
  }

  // Running on from a configuration is running on from the next one.
  lemma RunShifts(input: seq<Lexeme>, order: int, v0: Vars, c: Config, q: int)
    requires LexerOutput(input) && Consistent(input, order, v0, c) && c.Top() != YYFINAL
    requires var d := Fetch(input, c);
             && (Yypact(d.Top()) != YYPACT_NINF ==> d.look.Some? && 0 <= d.look.value.sym < YYNTOKENS)
             && Decision(d) == Shift(q)
    ensures var d := Fetch(input, c);
            && d.look.Some? && Consistent(input, order, v0, Push(d, q))
            && Run(input, order, v0, c) == Run(input, order, v0, Push(d, q))
  {
    hide Act;
    FetchKeeps(input, order, v0, c);
    var d := Fetch(input, c);
    DecisionIsAction(d);
    ShiftProperties(d.Top(), d.look.value.sym);
    PushKeeps(input, order, v0, d, q);
  }

  lemma RunReduces(input: seq<Lexeme>, order: int, v0: Vars, c: Config, r: int)
    requires LexerOutput(input) && Consistent(input, order, v0, c) && c.Top() != YYFINAL
    requires var d := Fetch(input, c);
             && (Yypact(d.Top()) != YYPACT_NINF ==> d.look.Some? && 0 <= d.look.value.sym < YYNTOKENS)
             && Decision(d) == Reduce(r)
    ensures Reduces(c.Top(), r) && Handle(c.states, r) && SPEC <= Yyr1(r)
    ensures var d := Fetch(input, c);
            && d.states == c.states && d.trees == c.trees
            && Consistent(input, order, v0, Pop(d, r, order))
            && Run(input, order, v0, c) == Run(input, order, v0, Pop(d, r, order))
            && Pop(d, r, order).Top() != YYFINAL && Rank(Pop(d, r, order).Top()) < Rank(c.Top())
  {
    hide Act, Edge, Yystos;
    FetchKeeps(input, order, v0, c);
    var d := Fetch(input, c);
    ReducesAsDecided(d);
    HandleOnTop(d.states, r);
    GotoIsNonterminal(r);
    PopStates(d, r, order);
    PopKeeps(input, order, v0, d, r);
  }

  lemma RunRejects(input: seq<Lexeme>, order: int, v0: Vars, c: Config)
    requires LexerOutput(input) && Consistent(input, order, v0, c) && c.Top() != YYFINAL
    requires var d := Fetch(input, c);
             && (Yypact(d.Top()) != YYPACT_NINF ==> d.look.Some? && 0 <= d.look.value.sym < YYNTOKENS)
             && Decision(d) == SyntaxError
    ensures Run(input, order, v0, c) == Rejected(Fetch(input, c)) && Fetch(input, c).vars == c.vars
  {
    hide Act;
  }

  lemma StartIsConsistent(input: seq<Lexeme>, order: int, v0: Vars)
    ensures Consistent(input, order, v0, Start(v0))
  {
  }

  ghost function Parse(input: seq<Lexeme>, order: int, v0: Vars): Outcome
    requires LexerOutput(input)
  {
    StartIsConsistent(input, order, v0);
    Run(input, order, v0, Start(v0))
  }
}
