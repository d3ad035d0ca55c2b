/**
 The grammar of date expressions: tokens with their values, derivation trees, and what a tree yields.
 */
module DateGrammar {
  import opened DateTables

  datatype MeridianMode = Am | Pm | Mer24

  // The parser's YYSTYPE union: which of its members was written last
  datatype Value = Number(n: int) | Meridian(m: MeridianMode)

  datatype Token = Token(sym: int, val: Value)

  /**
   What the lexer finds next in its input.  A word or number is one code with its value, except for a lone
   letter T: it separates date and time until a time has been seen, and is a military zone from then on.
   */
  datatype Lexeme = Fixed(code: int, val: Value) | LetterT

  const CODE_MILZONE := 274
  const CODE_RFC3339 := 275
  const MILITARY_T := -7 * 60

  // The code and value yylex returns for a lexeme; haveTime is the number of times already parsed.
  function Lex(x: Lexeme, haveTime: int): (int, Value) {
    match x
    case Fixed(code, val) => (code, val)
    case LetterT => if haveTime == 0 then (CODE_RFC3339, Number(0)) else (CODE_MILZONE, Number(MILITARY_T))
  }

  function LexToken(x: Lexeme, haveTime: int): Token {
    var (code, val) := Lex(x, haveTime);
    Token(Yytranslate(code), val)
  }

  // yylex returns codes up to zero only at the end of its input.
  predicate LexerOutput(input: seq<Lexeme>) {
    forall i :: 0 <= i < |input| && input[i].Fixed? ==> 0 < input[i].code
  }

  // The token is one the lexer can return for this lexeme.
  predicate LexedAs(x: Lexeme, t: Token) {
    t == LexToken(x, 0) || t == LexToken(x, 1)
  }

  lemma LexTokenProperties(x: Lexeme, haveTime: int)
    requires x.Fixed? ==> 0 < x.code
    ensures LexedAs(x, LexToken(x, haveTime)) && END < LexToken(x, haveTime).sym < YYNTOKENS
  {
  }

  datatype Tree = Leaf(tok: Token) | Node(rule: int, kids: seq<Tree>)

  function Root(t: Tree): int {
    match t
    case Leaf(tok) => tok.sym
    case Node(r, _) => if 0 <= r < 52 then Yyr1(r) else UNDEFINED
  }

  // t derives what it yields from its root by the rules of the grammar.
  ghost predicate WellFormed(t: Tree) {
    match t
    case Leaf(tok) => 0 <= tok.sym < YYNTOKENS
    case Node(r, kids) =>
      && 2 <= r < 52
      && |kids| == |Rhs(r)|
      && (forall i :: 0 <= i < |kids| ==> WellFormed(kids[i]))
      && (forall i :: 0 <= i < |kids| ==> Root(kids[i]) == Rhs(r)[i])
  }

  function Yield(t: Tree): seq<Token>
    decreases t, 0
  {
    match t
    case Leaf(tok) => [tok]
    case Node(_, kids) => YieldAll(kids)
  }

  function YieldAll(ts: seq<Tree>): seq<Token>
    decreases ts, 0
  {
    if ts == [] then [] else YieldAll(ts[..|ts| - 1]) + Yield(ts[|ts| - 1])
  }

  // The token string is derivable from the symbol.
  ghost predicate Derives(sym: int, toks: seq<Token>) {
    exists t :: WellFormed(t) && Root(t) == sym && Yield(t) == toks
  }

  lemma YieldAllSnoc(ts: seq<Tree>, t: Tree)
    ensures YieldAll(ts + [t]) == YieldAll(ts) + Yield(t)
  {
    assert (ts + [t])[..|ts|] == ts;
  }

  lemma {:induction false} YieldAllConcat(xs: seq<Tree>, ys: seq<Tree>)
    ensures YieldAll(xs + ys) == YieldAll(xs) + YieldAll(ys)
    decreases |ys|
  {
    hide Yield;
    if ys == [] {
      assert xs + ys == xs;
    } else {
      var init, last := ys[..|ys| - 1], ys[|ys| - 1];
      YieldAllConcat(xs, init);
      assert xs + ys == (xs + init) + [last];
      YieldAllSnoc(xs + init, last);
    }
  }

  // Sentences of the start symbol, as lists: a spec tree is its items from left to right.
  function Items(spec: Tree): seq<Tree> {
    match spec
    case Leaf(_) => []
    case Node(_, kids) => if |kids| == 2 then Items(kids[0]) + [kids[1]] else []
  }

  lemma {:induction false} SpecIsItems(spec: Tree)
    requires WellFormed(spec) && Root(spec) == SPEC
    ensures forall i :: 0 <= i < |Items(spec)| ==> WellFormed(Items(spec)[i]) && Root(Items(spec)[i]) == ITEM
    ensures YieldAll(Items(spec)) == Yield(spec)
  {
    SpecRules(spec);
    hide WellFormed, Root, YieldAll;
    if spec.rule == 3 {
      var kids := spec.kids;
      var rest := Items(kids[0]);
      SpecIsItems(kids[0]);
      YieldAllConcat([kids[0]], [kids[1]]);
      YieldOne(kids[0]);
      YieldOne(kids[1]);
      YieldAllSnoc(rest, kids[1]);
    }
  }

  // The start symbol has an empty rule and one that adds an item.
  lemma SpecRules(spec: Tree)
    requires WellFormed(spec) && Root(spec) == SPEC
    ensures spec.Node?
    ensures if spec.rule == 3 then
              && |spec.kids| == 2 && spec.kids == [spec.kids[0]] + [spec.kids[1]]
              && WellFormed(spec.kids[0]) && Root(spec.kids[0]) == SPEC
              && WellFormed(spec.kids[1]) && Root(spec.kids[1]) == ITEM
            else spec.kids == []
  {
    assert spec.rule == 2 || spec.rule == 3;
  }

  lemma YieldOne(t: Tree)
    ensures YieldAll([t]) == Yield(t)
  {
    assert [t] == [] + [t];
    YieldAllSnoc([], t);
  }
}
