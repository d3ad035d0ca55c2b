/**
 The tables of the generated date parser, and its numbering of symbols.  Every table is a function whose
 precondition is the extent of the array, so each use of it is an in-range proof.
 */
module DateTables {
  const YYPACT_NINF := -27
  const YYFINAL := 2
  const YYLAST := 105
  const YYNTOKENS := 25
  const YYMAXUTOK := 276
  const YYTERROR := 1
  const YYINITDEPTH := 200

  // Terminals
  const END := 0
  const ERROR_TOKEN := 1
  const UNDEFINED := 2
  const AGO := 3
  const DAY := 4
  const DAYZONE := 5
  const MERIDIAN := 7
  const MINUTE_UNIT := 8
  const MONTH := 9
  const MONTH_UNIT := 10
  const SNUMBER := 11
  const S4DIGIT := 12
  const UNUMBER := 13
  const U4DIGIT := 14
  const U6DIGIT := 15
  const U8DIGIT := 16
  const SEC_UNIT := 17
  const ZONE := 18
  const MILZONE := 19
  const RFC3339 := 20
  const DST := 21
  const COLON := 22
  const COMMA := 23
  const SLASH := 24

  // Nonterminals
  const SPEC := 26
  const ITEM := 27
  const TIME := 28
  const ZONE_ITEM := 29
  const DAY_ITEM := 30
  const DATE := 31
  const REL := 32
  const RELUNIT := 33
  const UNUMBER_NT := 34
  const NUMBER := 35
  const O_MERID := 36

  // The token number yylex returns, as a symbol number
  function Yytranslate(code: int): (s: int)
    ensures 0 <= s < YYNTOKENS
    ensures s == END <==> code == 0
    ensures s == ERROR_TOKEN <==> code == 256
  {
    if code == 0 then END
    else if code == 44 then COMMA
    else if code == 47 then SLASH
    else if code == 58 then COLON
    else if 256 <= code <= YYMAXUTOK then code - 255
    else UNDEFINED
  }

  // Index in Yytable of the part that describes a state; YYPACT_NINF if it has none.
  function Yypact(n: int): int
    requires 0 <= n < 63
  {
    match n
    case 0 => -27 case 1 => 49 case 2 => -27 case 3 => -10 case 4 => -27 case 5 => -27 case 6 => -11
    case 7 => -27 case 8 => 1 case 9 => 10 case 10 => 69 case 11 => 86 case 12 => -27 case 13 => -27
    case 14 => -9 case 15 => -27 case 16 => -27 case 17 => -27 case 18 => -27 case 19 => -27 case 20 => -27
    case 21 => -27 case 22 => 13 case 23 => -3 case 24 => -27 case 25 => -27 case 26 => -27 case 27 => -27
    case 28 => -27 case 29 => 8 case 30 => -27 case 31 => -27 case 32 => -27 case 33 => -27 case 34 => -27
    case 35 => -27 case 36 => -27 case 37 => -27 case 38 => -27 case 39 => -27 case 40 => 30 case 41 => -27
    case 42 => 9 case 43 => -27 case 44 => -11 case 45 => -11 case 46 => -11 case 47 => -27 case 48 => -27
    case 49 => 12 case 50 => 15 case 51 => 18 case 52 => -27 case 53 => -27 case 54 => -27 case 55 => -27
    case 56 => -11 case 57 => -27 case 58 => -11 case 59 => 23 case 60 => -27 case 61 => -27 case _ => -27
  }

  // Rule a state reduces by when Yytable says nothing; 0 is a syntax error.
  function Yydefact(n: int): int
    requires 0 <= n < 63
  {
    match n
    case 0 => 2 case 1 => 0 case 2 => 1 case 3 => 21 case 4 => 18 case 5 => 37 case 6 => 0 case 7 => 43
    case 8 => 0 case 9 => 44 case 10 => 45 case 11 => 46 case 12 => 27 case 13 => 40 case 14 => 17
    case 15 => 20 case 16 => 3 case 17 => 4 case 18 => 5 case 19 => 7 case 20 => 6 case 21 => 8 case 22 => 34
    case 23 => 0 case 24 => 9 case 25 => 22 case 26 => 44 case 27 => 45 case 28 => 46 case 29 => 29
    case 30 => 36 case 31 => 41 case 32 => 38 case 33 => 10 case 34 => 11 case 35 => 12 case 36 => 19
    case 37 => 33 case 38 => 23 case 39 => 35 case 40 => 31 case 41 => 42 case 42 => 0 case 43 => 39
    case 44 => 0 case 45 => 0 case 46 => 0 case 47 => 28 case 48 => 32 case 49 => 0 case 50 => 50 case 51 => 24
    case 52 => 30 case 53 => 26 case 54 => 51 case 55 => 14 case 56 => 0 case 57 => 13 case 58 => 0
    case 59 => 50 case 60 => 25 case 61 => 16 case _ => 15
  }

  // Index in Yytable of the part that describes a nonterminal.
  function Yypgoto(n: int): int
    requires 0 <= n < 12
  {
    match n
    case 0 => -27 case 1 => -27 case 2 => -27 case 3 => -27 case 4 => -27 case 5 => -27 case 6 => -27
    case 7 => -27 case 8 => -27 case 9 => -6 case 10 => -27 case _ => -26
  }

  // State a nonterminal leads to when Yytable says nothing.
  function Yydefgoto(n: int): int
    requires 0 <= n < 12
  {
    match n
    case 0 => -1 case 1 => 1 case 2 => 16 case 3 => 17 case 4 => 18 case 5 => 19 case 6 => 20 case 7 => 21
    case 8 => 22 case 9 => 23 case 10 => 24 case _ => 57
  }

  // A state to shift to, or a rule to reduce by, negated.
  function Yytable(n: int): int
    requires 0 <= n < 106
  {
    match n
    case 0 => 29 case 1 => 38 case 2 => 26 case 3 => 27 case 4 => 28 case 5 => 39 case 6 => 40 case 7 => 41
    case 8 => 42 case 9 => 30 case 10 => -47 case 11 => 31 case 12 => 36 case 13 => 25 case 14 => 43
    case 15 => -47 case 16 => 37 case 17 => 33 case 18 => 32 case 19 => 44 case 20 => 49 case 21 => 45
    case 22 => 54 case 23 => -47 case 24 => -47 case 25 => -47 case 26 => -47 case 27 => 55 case 28 => -47
    case 29 => -47 case 30 => 54 case 31 => 46 case 32 => 53 case 33 => 62 case 34 => 48 case 35 => 61
    case 36 => 0 case 37 => 56 case 38 => 50 case 39 => 51 case 40 => 52 case 41 => 47 case 42 => 58
    case 43 => 26 case 44 => 27 case 45 => 28 case 46 => 0 case 47 => 0 case 48 => 0 case 49 => 2 case 50 => 59
    case 51 => 0 case 52 => 60 case 53 => 3 case 54 => 4 case 55 => 0 case 56 => 0 case 57 => 5 case 58 => 6
    case 59 => 7 case 60 => 8 case 61 => 0 case 62 => 9 case 63 => 10 case 64 => 11 case 65 => 12 case 66 => 13
    case 67 => 14 case 68 => 15 case 69 => -48 case 70 => 0 case 71 => 0 case 72 => 0 case 73 => 0
    case 74 => -48 case 75 => 0 case 76 => 0 case 77 => 0 case 78 => 0 case 79 => 0 case 80 => 0 case 81 => 34
    case 82 => -48 case 83 => -48 case 84 => -48 case 85 => -48 case 86 => -49 case 87 => -48 case 88 => -48
    case 89 => 0 case 90 => 0 case 91 => -49 case 92 => 0 case 93 => 0 case 94 => 0 case 95 => 0 case 96 => 0
    case 97 => 0 case 98 => 35 case 99 => -49 case 100 => -49 case 101 => -49 case 102 => -49 case 103 => 0
    case 104 => -49 case _ => -49
  }

  // The token (or, for a goto, the state) an entry of Yytable belongs to.
  function Yycheck(n: int): int
    requires 0 <= n < 106
  {
    match n
    case 0 => 6 case 1 => 4 case 2 => 13 case 3 => 14 case 4 => 15 case 5 => 8 case 6 => 9 case 7 => 10
    case 8 => 11 case 9 => 8 case 10 => 0 case 11 => 10 case 12 => 21 case 13 => 23 case 14 => 17 case 15 => 5
    case 16 => 3 case 17 => 7 case 18 => 17 case 19 => 22 case 20 => 11 case 21 => 24 case 22 => 7
    case 23 => 13 case 24 => 14 case 25 => 15 case 26 => 16 case 27 => 12 case 28 => 18 case 29 => 19
    case 30 => 7 case 31 => 23 case 32 => 20 case 33 => 59 case 34 => 40 case 35 => 12 case 36 => -1
    case 37 => 22 case 38 => 44 case 39 => 45 case 40 => 46 case 41 => 11 case 42 => 24 case 43 => 13
    case 44 => 14 case 45 => 15 case 46 => -1 case 47 => -1 case 48 => -1 case 49 => 0 case 50 => 56
    case 51 => -1 case 52 => 58 case 53 => 4 case 54 => 5 case 55 => -1 case 56 => -1 case 57 => 8 case 58 => 9
    case 59 => 10 case 60 => 11 case 61 => -1 case 62 => 13 case 63 => 14 case 64 => 15 case 65 => 16
    case 66 => 17 case 67 => 18 case 68 => 19 case 69 => 0 case 70 => -1 case 71 => -1 case 72 => -1
    case 73 => -1 case 74 => 5 case 75 => -1 case 76 => -1 case 77 => -1 case 78 => -1 case 79 => -1
    case 80 => -1 case 81 => 12 case 82 => 13 case 83 => 14 case 84 => 15 case 85 => 16 case 86 => 0
    case 87 => 18 case 88 => 19 case 89 => -1 case 90 => -1 case 91 => 5 case 92 => -1 case 93 => -1
    case 94 => -1 case 95 => -1 case 96 => -1 case 97 => -1 case 98 => 12 case 99 => 13 case 100 => 14
    case 101 => 15 case 102 => 16 case 103 => -1 case 104 => 18 case _ => 19
  }

  // The symbol that leads into a state.
  function Yystos(n: int): int
    requires 0 <= n < 63
  {
    match n
    case 0 => 0 case 1 => 26 case 2 => 0 case 3 => 4 case 4 => 5 case 5 => 8 case 6 => 9 case 7 => 10
    case 8 => 11 case 9 => 13 case 10 => 14 case 11 => 15 case 12 => 16 case 13 => 17 case 14 => 18
    case 15 => 19 case 16 => 27 case 17 => 28 case 18 => 29 case 19 => 30 case 20 => 31 case 21 => 32
    case 22 => 33 case 23 => 34 case 24 => 35 case 25 => 23 case 26 => 13 case 27 => 14 case 28 => 15
    case 29 => 34 case 30 => 8 case 31 => 10 case 32 => 17 case 33 => 7 case 34 => 12 case 35 => 12
    case 36 => 21 case 37 => 3 case 38 => 4 case 39 => 8 case 40 => 9 case 41 => 10 case 42 => 11 case 43 => 17
    case 44 => 22 case 45 => 24 case 46 => 23 case 47 => 11 case 48 => 34 case 49 => 11 case 50 => 34
    case 51 => 34 case 52 => 34 case 53 => 20 case 54 => 7 case 55 => 12 case 56 => 22 case 57 => 36
    case 58 => 24 case 59 => 34 case 60 => 34 case 61 => 12 case _ => 36
  }

  // Left-hand side of a rule.
  function Yyr1(n: int): int
    requires 0 <= n < 52
  {
    match n
    case 0 => 0 case 1 => 25 case 2 => 26 case 3 => 26 case 4 => 27 case 5 => 27 case 6 => 27 case 7 => 27
    case 8 => 27 case 9 => 27 case 10 => 28 case 11 => 28 case 12 => 28 case 13 => 28 case 14 => 28
    case 15 => 28 case 16 => 28 case 17 => 29 case 18 => 29 case 19 => 29 case 20 => 29 case 21 => 30
    case 22 => 30 case 23 => 30 case 24 => 31 case 25 => 31 case 26 => 31 case 27 => 31 case 28 => 31
    case 29 => 31 case 30 => 31 case 31 => 31 case 32 => 31 case 33 => 32 case 34 => 32 case 35 => 33
    case 36 => 33 case 37 => 33 case 38 => 33 case 39 => 33 case 40 => 33 case 41 => 33 case 42 => 33
    case 43 => 33 case 44 => 34 case 45 => 34 case 46 => 34 case 47 => 35 case 48 => 35 case 49 => 35
    case 50 => 36 case _ => 36
  }

  // Length of the right-hand side of a rule.
  function Yyr2(n: int): int
    requires 0 <= n < 52
  {
    match n
    case 0 => 0 case 1 => 2 case 2 => 0 case 3 => 2 case 4 => 1 case 5 => 1 case 6 => 1 case 7 => 1 case 8 => 1
    case 9 => 1 case 10 => 2 case 11 => 2 case 12 => 2 case 13 => 4 case 14 => 4 case 15 => 6 case 16 => 6
    case 17 => 1 case 18 => 1 case 19 => 2 case 20 => 1 case 21 => 1 case 22 => 2 case 23 => 2 case 24 => 3
    case 25 => 5 case 26 => 4 case 27 => 1 case 28 => 3 case 29 => 2 case 30 => 4 case 31 => 2 case 32 => 3
    case 33 => 2 case 34 => 1 case 35 => 2 case 36 => 2 case 37 => 1 case 38 => 2 case 39 => 2 case 40 => 1
    case 41 => 2 case 42 => 2 case 43 => 1 case 44 => 1 case 45 => 1 case 46 => 1 case 47 => 1 case 48 => 1
    case 49 => 1 case 50 => 0 case _ => 1
  }

  // The right-hand side of a rule
  function Rhs(r: int): seq<int> {
    match r
    case 2 => [] case 3 => [SPEC, ITEM] case 4 => [TIME] case 5 => [ZONE_ITEM] case 6 => [DATE]
    case 7 => [DAY_ITEM] case 8 => [REL] case 9 => [NUMBER] case 10 => [UNUMBER, MERIDIAN]
    case 11 => [U4DIGIT, S4DIGIT] case 12 => [U6DIGIT, S4DIGIT]
    case 13 => [UNUMBER_NT, COLON, UNUMBER_NT, O_MERID] case 14 => [UNUMBER_NT, COLON, UNUMBER_NT, S4DIGIT]
    case 15 => [UNUMBER_NT, COLON, UNUMBER_NT, COLON, UNUMBER_NT, O_MERID]
    case 16 => [UNUMBER_NT, COLON, UNUMBER_NT, COLON, UNUMBER_NT, S4DIGIT] case 17 => [ZONE]
    case 18 => [DAYZONE] case 19 => [ZONE, DST] case 20 => [MILZONE] case 21 => [DAY] case 22 => [DAY, COMMA]
    case 23 => [UNUMBER_NT, DAY] case 24 => [UNUMBER_NT, SLASH, UNUMBER_NT]
    case 25 => [UNUMBER_NT, SLASH, UNUMBER_NT, SLASH, UNUMBER_NT]
    case 26 => [UNUMBER_NT, SNUMBER, SNUMBER, RFC3339] case 27 => [U8DIGIT]
    case 28 => [UNUMBER_NT, MONTH, SNUMBER] case 29 => [MONTH, UNUMBER_NT]
    case 30 => [MONTH, UNUMBER_NT, COMMA, UNUMBER_NT] case 31 => [UNUMBER_NT, MONTH]
    case 32 => [UNUMBER_NT, MONTH, UNUMBER_NT] case 33 => [RELUNIT, AGO] case 34 => [RELUNIT]
    case 35 => [UNUMBER_NT, MINUTE_UNIT] case 36 => [SNUMBER, MINUTE_UNIT] case 37 => [MINUTE_UNIT]
    case 38 => [SNUMBER, SEC_UNIT] case 39 => [UNUMBER_NT, SEC_UNIT] case 40 => [SEC_UNIT]
    case 41 => [SNUMBER, MONTH_UNIT] case 42 => [UNUMBER_NT, MONTH_UNIT] case 43 => [MONTH_UNIT]
    case 44 => [UNUMBER] case 45 => [U4DIGIT] case 46 => [U6DIGIT] case 47 => [UNUMBER] case 48 => [U4DIGIT]
    case 49 => [U6DIGIT] case 50 => [] case 51 => [MERIDIAN] case _ => [SPEC, END]
  }
}
