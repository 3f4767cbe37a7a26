// The LALR(1) tables of the AVS expression grammar, as Bison 1.875 emitted them,
// and the table decoding that the parser driver performs on them.
module AvsTables {
  import opened Wrappers

  /** Numbers of the parser's entities. */
  const YYFINAL := 16
  const YYLAST := 76
  const YYNTOKENS := 19
  const YYNNTS := 7
  const YYNRULES := 25
  const YYNSTATES := 41
  const YYUNDEFTOK := 2
  const YYMAXUTOK := 261
  const YYPACT_NINF := -15
  const YYTABLE_NINF := -1
  const YYEOF := 0
  const YYEMPTY := -2
  const YYTERROR := 1

  /** The C element types of the tables. */
  type UChar = x: int | 0 <= x < 256
  type SChar = x: int | -128 <= x < 128

  /** An internal (translated) token number, and a state number. */
  type Symbol = x: int | 0 <= x < 19
  type StateNum = x: int | 0 <= x < 41

  /** Lexer code (0 ..= YYMAXUTOK) to internal token number. */
  function yytranslate(k: int): Symbol
    requires 0 <= k <= YYMAXUTOK
  {
    if k < 48 then
      if k < 41 then
        if k < 38 then
          if k < 1 then 0
          else if k < 37 then 2 else 13
        else if k < 39 then 8
        else if k < 40 then 2 else 16
      else if k < 44 then
        if k < 42 then 17
        else if k < 43 then 11 else 9
      else if k < 46 then
        if k < 45 then 18 else 10
      else if k < 47 then 2 else 12
    else if k < 125 then
      if k < 61 then
        if k < 59 then 2
        else if k < 60 then 15 else 2
      else if k < 62 then 6
      else if k < 124 then 2 else 7
    else if k < 258 then
      if k < 256 then 2
      else if k < 257 then 1 else 2
    else if k < 260 then
      if k < 259 then 3 else 4
    else if k < 261 then 5 else 14
  }

  /** Symbol number of the left-hand side of each rule. */
  function yyr1(k: int): UChar
    requires 0 <= k <= YYNRULES
  {
    if k < 6 then
      if k < 2 then
        if k < 1 then 0 else 19
      else if k < 4 then 20 else 21
    else if k < 20 then
      if k < 8 then 22 else 23
    else if k < 23 then 24 else 25
  }

  /** Number of right-hand-side symbols of each rule. */
  function yyr2(k: int): UChar
    requires 0 <= k <= YYNRULES
  {
    if k < 8 then
      if k < 4 then
        if k < 2 then
          if k < 1 then 0 else 2
        else if k < 3 then 1 else 0
      else if k < 6 then
        if k < 5 then 1 else 2
      else if k < 7 then 1 else 2
    else if k < 21 then
      if k < 11 then
        if k < 9 then 1 else 2
      else if k < 20 then 3 else 0
    else if k < 23 then
      if k < 22 then 1 else 3
    else if k < 25 then 1 else 4
  }

  /** Default rule to reduce with in each state; zero means error. */
  function yydefact(k: int): UChar
    requires 0 <= k <= YYNSTATES - 1
  {
    if k < 18 then
      if k < 10 then
        if k < 5 then
          if k < 2 then
            if k < 1 then 3 else 24
          else if k < 3 then 23 else 0
        else if k < 8 then
          if k < 6 then 6 else 0
        else if k < 9 then 2 else 4
      else if k < 14 then
        if k < 12 then
          if k < 11 then 0 else 8
        else if k < 13 then 20 else 10
      else if k < 16 then
        if k < 15 then 9 else 0
      else if k < 17 then 1 else 5
    else if k < 33 then
      if k < 29 then
        if k < 27 then
          if k < 26 then 0 else 7
        else if k < 28 then 21 else 0
      else if k < 31 then
        if k < 30 then 19 else 18
      else if k < 32 then 17 else 16
    else if k < 37 then
      if k < 35 then
        if k < 34 then 11 else 12
      else if k < 36 then 13 else 14
    else if k < 39 then
      if k < 38 then 15 else 25
    else if k < 40 then 0 else 22
  }

  /** Default goto state of each nonterminal. */
  function yydefgoto(k: int): SChar
    requires 0 <= k <= YYNNTS - 1
  {
    if k < 3 then
      if k < 1 then -1
      else if k < 2 then 7 else 8
    else if k < 5 then
      if k < 4 then 9 else 10
    else if k < 6 then 28 else 11
  }

  /** Index in yytable of the portion describing each state. */
  function yypact(k: int): SChar
    requires 0 <= k <= YYNSTATES - 1
  {
    if k < 15 then
      if k < 7 then
        if k < 3 then
          if k < 1 then 22
          else if k < 2 then -14 else -15
        else if k < 5 then 24
        else if k < 6 then -15 else 24
      else if k < 10 then
        if k < 8 then 23
        else if k < 9 then 22 else -15
      else if k < 12 then
        if k < 11 then 47 else -15
      else if k < 13 then 24 else -15
    else if k < 30 then
      if k < 26 then
        if k < 16 then 35
        else if k < 18 then -15 else 24
      else if k < 28 then
        if k < 27 then -15 else 57
      else if k < 29 then -4 else -15
    else if k < 33 then
      if k < 31 then 57
      else if k < 32 then 63 else -5
    else if k < 39 then
      if k < 35 then -1 else -15
    else if k < 40 then 24 else 57
  }

  /** Index in yytable of the portion describing each nonterminal's gotos. */
  function yypgoto(k: int): SChar
    requires 0 <= k <= YYNNTS - 1
  {
    if k < 4 then
      if k < 3 then -15 else 16
    else if k < 5 then -3 else -15
  }

  /** Shift and goto targets (the C element type is unsigned char; every entry of
      this grammar's table is a state number, 0 standing for an empty slot). */
  function yytable(k: int): StateNum
    requires 0 <= k <= YYLAST
  {
    if k < 38 then
      if k < 18 then
        if k < 9 then
          if k < 4 then
            if k < 2 then
              if k < 1 then 13 else 14
            else if k < 3 then 12 else 15
          else if k < 6 then
            if k < 5 then 21 else 22
          else if k < 7 then 23
          else if k < 8 then 24 else 25
        else if k < 13 then
          if k < 11 then
            if k < 10 then 27 else 23
          else if k < 12 then 24 else 25
        else if k < 15 then
          if k < 14 then 38 else 39
        else if k < 16 then 30
        else if k < 17 then 31 else 32
      else if k < 27 then
        if k < 22 then
          if k < 20 then
            if k < 19 then 33 else 34
          else if k < 21 then 35 else 36
        else if k < 24 then
          if k < 23 then 37 else 16
        else if k < 25 then 17
        else if k < 26 then 1 else 2
      else if k < 33 then
        if k < 29 then
          if k < 28 then 1 else 2
        else if k < 31 then 0
        else if k < 32 then 3 else 4
      else if k < 35 then
        if k < 34 then 3 else 4
      else if k < 36 then 0
      else if k < 37 then 40 else 5
    else if k < 58 then
      if k < 47 then
        if k < 42 then
          if k < 40 then
            if k < 39 then 6 else 0
          else if k < 41 then 6 else 18
        else if k < 44 then
          if k < 43 then 19 else 20
        else if k < 45 then 21
        else if k < 46 then 22 else 23
      else if k < 53 then
        if k < 49 then
          if k < 48 then 24 else 25
        else if k < 52 then 0 else 29
      else if k < 55 then
        if k < 54 then 18 else 19
      else if k < 56 then 20
      else if k < 57 then 21 else 22
    else if k < 67 then
      if k < 62 then
        if k < 60 then
          if k < 59 then 23 else 24
        else if k < 61 then 25 else 0
      else if k < 64 then
        if k < 63 then 26 else 18
      else if k < 65 then 19
      else if k < 66 then 20 else 21
    else if k < 72 then
      if k < 69 then
        if k < 68 then 22 else 23
      else if k < 70 then 24
      else if k < 71 then 25 else 20
    else if k < 74 then
      if k < 73 then 21 else 22
    else if k < 75 then 23
    else if k < 76 then 24 else 25
  }

  function yycheck(k: int): SChar
    requires 0 <= k <= YYLAST
  {
    if k < 38 then
      if k < 19 then
        if k < 9 then
          if k < 4 then
            if k < 2 then
              if k < 1 then 3 else 4
            else if k < 3 then 16 else 6
          else if k < 6 then
            if k < 5 then 9 else 10
          else if k < 7 then 11
          else if k < 8 then 12 else 13
        else if k < 13 then
          if k < 11 then
            if k < 10 then 12 else 11
          else if k < 12 then 12 else 13
        else if k < 16 then
          if k < 14 then 17 else 18
        else if k < 17 then 19
        else if k < 18 then 20 else 21
      else if k < 28 then
        if k < 23 then
          if k < 21 then
            if k < 20 then 22 else 23
          else if k < 22 then 24 else 25
        else if k < 25 then
          if k < 24 then 0 else 8
        else if k < 26 then 3
        else if k < 27 then 4 else 3
      else if k < 33 then
        if k < 31 then
          if k < 29 then 4 else -1
        else if k < 32 then 9 else 10
      else if k < 35 then
        if k < 34 then 9 else 10
      else if k < 36 then -1
      else if k < 37 then 39 else 15
    else if k < 58 then
      if k < 47 then
        if k < 42 then
          if k < 40 then
            if k < 39 then 16 else -1
          else if k < 41 then 16 else 6
        else if k < 44 then
          if k < 43 then 7 else 8
        else if k < 45 then 9
        else if k < 46 then 10 else 11
      else if k < 53 then
        if k < 49 then
          if k < 48 then 12 else 13
        else if k < 52 then -1 else 17
      else if k < 55 then
        if k < 54 then 6 else 7
      else if k < 56 then 8
      else if k < 57 then 9 else 10
    else if k < 67 then
      if k < 62 then
        if k < 60 then
          if k < 59 then 11 else 12
        else if k < 61 then 13 else -1
      else if k < 64 then
        if k < 63 then 15 else 6
      else if k < 65 then 7
      else if k < 66 then 8 else 9
    else if k < 72 then
      if k < 69 then
        if k < 68 then 10 else 11
      else if k < 70 then 12
      else if k < 71 then 13 else 8
    else if k < 74 then
      if k < 73 then 9 else 10
    else if k < 75 then 11
    else if k < 76 then 12 else 13
  }

  /** YYTRANSLATE: the code, cast to unsigned int (taken modulo 2^32), is
      looked up when it is at most YYMAXUTOK; any other is undefined. */
  function Translate(code: int): (t: Symbol)
    ensures 0 <= code <= YYMAXUTOK ==> t == yytranslate(code)
    ensures -0x8000_0000 <= code < 0 ==> t == YYUNDEFTOK
    ensures YYMAXUTOK < code < 0x1_0000_0000 ==> t == YYUNDEFTOK
  {
    var u := code % 0x1_0000_0000;
    if u <= YYMAXUTOK then yytranslate(u) else YYUNDEFTOK
  }

  /** The codes the lexer returns and their token numbers: end of input is
      $end, 256 the error token, and IDENTIFIER, CONSTANT, FUNCTION and UNARY
      (258-261) are tokens 3, 4, 5 and 14; -1, which no rule names, is
      undefined. */
  lemma TranslateNamed()
    ensures Translate(0) == YYEOF && Translate(256) == YYTERROR
    ensures Translate(258) == 3 && Translate(259) == 4 && Translate(260) == 5 && Translate(261) == 14
    ensures Translate(-1) == YYUNDEFTOK
  {
  }

  /** The characters the grammar uses as tokens (, ; = | & + - * / % ( ) and
      the named codes are exactly the codes YYTRANSLATE does not send to the
      undefined token. */
  lemma TranslateDefined(code: int)
    requires -0x8000_0000 <= code < 0x8000_0000
    ensures Translate(code) != YYUNDEFTOK <==>
              code in {0, 37, 38, 40, 41, 42, 43, 44, 45, 47, 59, 61, 124, 256, 258, 259, 260, 261}
  {
  }

  /** What the parser does in a state on a lookahead. */
  datatype Action = Error | Reduce(rule: int) | Shift(target: StateNum) | Accept

  /** yydefault: reduce by yydefact, where a zero entry is an error. */
  function DefaultAction(s: StateNum): Action {
    if yydefact(s) == 0 then Error else Reduce(yydefact(s))
  }

  /** The yytable entry for state s and token t, when yycheck confirms it belongs to s. */
  function TableEntry(s: StateNum, t: Symbol): Option<StateNum>
    requires yypact(s) != YYPACT_NINF
  {
    var k := yypact(s) + t;
    if k < 0 || YYLAST < k || yycheck(k) != t then None else Some(yytable(k))
  }

  /** yybackup: decoding of the action of state s on lookahead t (a state whose
      yypact is NINF never consults the lookahead). */
  function TokenAction(s: StateNum, t: Symbol): Action {
    if yypact(s) == YYPACT_NINF then DefaultAction(s)
    else match TableEntry(s, t)
      case None => DefaultAction(s)
      case Some(e) =>
        var v: int := e;
        if v <= 0 then (if v == 0 || v == YYTABLE_NINF then Error else Reduce(-v))
        else if v == YYFINAL then Accept
        else Shift(v)
  }

  /** The state entered after reducing to nonterminal a (a symbol number above
      YYNTOKENS: $accept is never reduced to) with state u on top of the remaining stack. */
  function GotoState(u: StateNum, a: int): StateNum
    requires YYNTOKENS < a < YYNTOKENS + YYNNTS
  {
    var k := yypgoto(a - YYNTOKENS) + u;
    if 0 <= k <= YYLAST && yycheck(k) == u then yytable(k) else yydefgoto(a - YYNTOKENS)
  }

  /** yyerrlab1: the state to shift the error token into from s, if any. */
  function ErrorShift(s: StateNum): Option<StateNum> {
    var n := yypact(s);
    if n == YYPACT_NINF then None
    else
      var k := n + YYTERROR;
      if 0 <= k <= YYLAST && yycheck(k) == YYTERROR && 0 < yytable(k) then Some(yytable(k))
      else None
  }

  /** No state of this grammar can shift the error token: yycheck never holds 1. */
  lemma NoErrorShift(s: StateNum)
    ensures ErrorShift(s) == None
  {
    assert forall k | 0 <= k <= YYLAST :: yycheck(k) != YYTERROR;
  }

  /** Every yytable entry is an unsigned byte, so yytable never asks for a
      reduction: all reductions come from yydefact. */
  lemma TableNeverReduces(s: StateNum, t: Symbol)
    requires TokenAction(s, t).Reduce?
    ensures TokenAction(s, t) == DefaultAction(s)
  {
  }
}
