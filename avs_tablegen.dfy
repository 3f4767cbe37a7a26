// The table generator compiled instead of the expression parser: main of
// avs_parser.tab.c re-decodes the LALR(1) tables into a grid of parser-state
// entries, a goto grid, the rule arrays and a translation table for the
// lexer's token kinds, and prints them as a C header.
module AvsTablegen {
  import opened Wrappers
  import opened AvsTables

  /** The entry kinds of main's enum, named as main prints them: Default,
      Error, Reduce, Shift and Accept. */
  datatype Kind = D | E | R | S | A

  /** One emit_state call: the kind, the rule or target state, the rule's
      nonterminal (counted from the first one) and the rule's length. */
  datatype Emit = Emit(kind: Kind, index: int, argument: int, length: int)

  /** Every reduction the tables ask for is by a rule of the grammar. */
  lemma ReductionIsRule(s: StateNum, t: Symbol)
    requires TokenAction(s, t).Reduce?
    ensures 1 <= TokenAction(s, t).rule <= YYNRULES
  {
    TableNeverReduces(s, t);
  }

  /** The entry main emits for state s and token t: what the driver does there.
      The first token of a row that never reads a lookahead is marked Default
      when the row reduces. */
  function Expected(s: StateNum, t: Symbol): Emit {
    match TokenAction(s, t)
    case Error => Emit(E, 0, 0, 0)
    case Accept => Emit(A, 0, 0, 0)
    case Shift(v) => Emit(S, v, 0, 0)
    case Reduce(r) =>
      ReductionIsRule(s, t);
      Emit(if yypact(s) == YYPACT_NINF && t == 0 then D else R, r, yyr1(r) - YYNTOKENS, yyr2(r))
  }

  /** The row of state s of the parser-state grid. */
  function Row(s: StateNum): seq<Emit> {
    seq(YYNTOKENS, t requires 0 <= t < YYNTOKENS => Expected(s, t))
  }

  /** The slots of state s and token t in rulegoto and rulenr: the entry's
      nonterminal and index, except that the first token of a row which never
      reads a lookahead is left at zero. */
  function RuleGoto(s: StateNum, t: Symbol): int {
    if yypact(s) == YYPACT_NINF && t == 0 then 0 else Expected(s, t).argument
  }

  function RuleNr(s: StateNum, t: Symbol): int {
    if yypact(s) == YYPACT_NINF && t == 0 then 0 else Expected(s, t).index
  }

  /** The token kinds of the lexer, indexed by kind, the list ended by -1. */
  const IDENTIFIER := 258
  const CONSTANT := 259
  const types: seq<int> := [YYEOF, YYEOF, IDENTIFIER, CONSTANT, -1]

  /** The punctuation the lexer passes on as its own character code. */
  const puncs: string := ",;=()&-+*%|/"

  /** The inner loop of main for a state whose yypact is not NINF: the same
      decoding as yybackup and yydefault, into an entry. */
  method DecodeEntry(state: StateNum, symbol: Symbol) returns (e: Emit)
    requires yypact(state) != YYPACT_NINF
    ensures e == Expected(state, symbol)
  {
    var t := E;
    var v := yypact(state) + symbol;
    var a, l := 0, 0;
    if v < 0 || v > YYLAST || yycheck(v) != symbol {
      v := yydefact(state);
      if v == 0 {
        t := E;
      } else {
        t := R;
        a := yyr1(v) - YYNTOKENS;
        l := yyr2(v);
      }
    } else {
      v := yytable(v);
      if v <= 0 {
        if v == 0 || v == YYTABLE_NINF {
          t := E;
          v := 0;
        } else {
          // yytable holds unsigned bytes: no entry asks for a reduction
          assert false;
        }
      } else if v == YYFINAL {
        t := A;
        v := 0;
      } else {
        t := S;
      }
    }
    e := Emit(t, v, a, l);
  }

  /** The goto row of state: for each nonterminal, the yytable entry in its
      yypgoto portion when yycheck confirms it belongs to the state, else the
      default goto. */
  method GotoRow(state: StateNum, newstate: array2<int>)
    requires newstate.Length0 == YYNSTATES && newstate.Length1 == YYNNTS
    modifies newstate
    ensures forall j | 1 <= j < YYNNTS :: newstate[state, j] == GotoState(state, YYNTOKENS + j)
    ensures newstate[state, 0] == yydefgoto(0)
    ensures forall s, j | 0 <= s < YYNSTATES && s != state && 0 <= j < YYNNTS :: newstate[s, j] == old(newstate[s, j])
  {
    var symbol := 0;
    while symbol < YYNNTS
      invariant 0 <= symbol <= YYNNTS
      invariant forall j | 1 <= j < symbol :: newstate[state, j] == GotoState(state, YYNTOKENS + j)
      invariant 0 < symbol ==> newstate[state, 0] == yydefgoto(0)
      invariant forall s, j | 0 <= s < YYNSTATES && s != state && 0 <= j < YYNNTS :: newstate[s, j] == old(newstate[s, j])
    {
      var a := state + yypgoto(symbol);
      if a >= 0 && a <= YYLAST && yycheck(a) == state {
        newstate[state, symbol] := yytable(a);
      } else {
        newstate[state, symbol] := yydefgoto(symbol);
      }
      symbol := symbol + 1;
    }
  }

  /** The rule slots of rows below n are filled, those of rows from n on are zero. */
  ghost predicate RulesUpTo(rulegoto: seq<int>, rulenr: seq<int>, n: int)
    requires |rulegoto| == |rulenr| == YYNSTATES * YYNTOKENS && 0 <= n <= YYNSTATES
  {
    (forall s, t | 0 <= s < n && 0 <= t < YYNTOKENS ::
      rulegoto[s * YYNTOKENS + t] == RuleGoto(s, t) && rulenr[s * YYNTOKENS + t] == RuleNr(s, t))
    && (forall i | n * YYNTOKENS <= i < YYNSTATES * YYNTOKENS :: rulegoto[i] == 0 && rulenr[i] == 0)
  }

  /** The rule slots of row state hold what they should, the others are as before. */
  ghost predicate RowWritten(rulegoto: seq<int>, rulenr: seq<int>, rg0: seq<int>, rn0: seq<int>, state: StateNum)
    requires |rulegoto| == |rulenr| == |rg0| == |rn0| == YYNSTATES * YYNTOKENS
  {
    (forall t | 0 <= t < YYNTOKENS && (yypact(state) != YYPACT_NINF || t != 0) ::
      rulegoto[state * YYNTOKENS + t] == RuleGoto(state, t) && rulenr[state * YYNTOKENS + t] == RuleNr(state, t))
    && (forall i | 0 <= i < YYNSTATES * YYNTOKENS && (i < state * YYNTOKENS || state * YYNTOKENS + YYNTOKENS <= i
                                                      || (yypact(state) == YYPACT_NINF && i == state * YYNTOKENS)) ::
          rulegoto[i] == rg0[i] && rulenr[i] == rn0[i])
  }

  /** A row whose yypact is NINF: the default reduction (or error) for every
      token, the first one emitted as Default when it reduces; the rule slots
      of the first token are skipped. */
  method DefaultRow(state: StateNum, rulegoto: array<int>, rulenr: array<int>) returns (row: seq<Emit>)
    requires yypact(state) == YYPACT_NINF
    requires rulegoto.Length == YYNSTATES * YYNTOKENS && rulenr.Length == YYNSTATES * YYNTOKENS && rulegoto != rulenr
    modifies rulegoto, rulenr
    ensures row == Row(state)
    ensures RowWritten(rulegoto[..], rulenr[..], old(rulegoto[..]), old(rulenr[..]), state)
  {
    var t: Kind;
    var v := yydefact(state);
    var a: int, l: int;
    if v == 0 {
      t, a, l := E, 0, 0;
    } else {
      t, a, l := R, yyr1(v) - YYNTOKENS, yyr2(v);
    }
    if t == E {
      row := [Emit(t, v, a, l)];
    } else {
      row := [Emit(D, v, a, l)];
    }
    var symbol := 1;
    while symbol < YYNTOKENS
      invariant 1 <= symbol <= YYNTOKENS
      invariant row == Row(state)[..symbol]
      invariant forall u | 1 <= u < symbol ::
        rulegoto[state * YYNTOKENS + u] == RuleGoto(state, u) && rulenr[state * YYNTOKENS + u] == RuleNr(state, u)
      invariant forall i | 0 <= i < YYNSTATES * YYNTOKENS && !(state * YYNTOKENS + 1 <= i < state * YYNTOKENS + symbol) ::
        rulegoto[i] == old(rulegoto[i]) && rulenr[i] == old(rulenr[i])
    {
      assert Expected(state, symbol) == Emit(t, v, a, l);
      assert Row(state)[..symbol + 1] == Row(state)[..symbol] + [Expected(state, symbol)];
      row := row + [Emit(t, v, a, l)];
      rulegoto[state * YYNTOKENS + symbol] := a;
      rulenr[state * YYNTOKENS + symbol] := v;
      symbol := symbol + 1;
    }
  }

  /** A row whose yypact is not NINF: each token decoded on its own. */
  method TokenRow(state: StateNum, rulegoto: array<int>, rulenr: array<int>) returns (row: seq<Emit>)
    requires yypact(state) != YYPACT_NINF
    requires rulegoto.Length == YYNSTATES * YYNTOKENS && rulenr.Length == YYNSTATES * YYNTOKENS && rulegoto != rulenr
    modifies rulegoto, rulenr
    ensures row == Row(state)
    ensures RowWritten(rulegoto[..], rulenr[..], old(rulegoto[..]), old(rulenr[..]), state)
  {
    row := [];
    var symbol := 0;
    while symbol < YYNTOKENS
      invariant 0 <= symbol <= YYNTOKENS
      invariant row == Row(state)[..symbol]
      invariant forall u | 0 <= u < symbol ::
        rulegoto[state * YYNTOKENS + u] == RuleGoto(state, u) && rulenr[state * YYNTOKENS + u] == RuleNr(state, u)
      invariant forall i | 0 <= i < YYNSTATES * YYNTOKENS && !(state * YYNTOKENS <= i < state * YYNTOKENS + symbol) ::
        rulegoto[i] == old(rulegoto[i]) && rulenr[i] == old(rulenr[i])
    {
      var e := DecodeEntry(state, symbol);
      rulegoto[state * YYNTOKENS + symbol] := e.argument;
      rulenr[state * YYNTOKENS + symbol] := e.index;
      row := row + [e];
      symbol := symbol + 1;
    }
  }

  /** The first loop of the translation table: each token kind of the lexer
      mapped as YYTRANSLATE maps it; max is the largest kind. */
  method TranslateKinds(translate: array<int>) returns (max: int)
    requires translate.Length == 256 && forall c | 0 <= c < 256 :: translate[c] == 0
    modifies translate
    ensures max == 3
    ensures forall k | 0 <= k < 4 :: translate[k] == Translate(types[k])
    ensures forall c | 4 <= c < 256 :: translate[c] == 0
  {
    max := 0;
    var v := 0;
    while types[v] != -1
      invariant 0 <= v <= 4 && max == (if v == 0 then 0 else v - 1)
      invariant forall k | 0 <= k < v :: translate[k] == Translate(types[k])
      invariant forall c | v <= c < 256 :: translate[c] == 0
      decreases 4 - v
    {
      translate[v] := Translate(types[v]);
      max := if v > max then v else max;
      v := v + 1;
    }
  }

  /** The largest of m and the codes of the characters of s. */
  function MaxCode(m: int, s: string): (r: int)
    ensures m <= r && forall i | 0 <= i < |s| :: s[i] as int <= r
    ensures r == m || exists i | 0 <= i < |s| :: s[i] as int == r
  {
    if |s| == 0 then m
    else
      var r0 := MaxCode(m, s[..|s| - 1]);
      assert forall i | 0 <= i < |s| - 1 :: s[..|s| - 1][i] == s[i];
      if s[|s| - 1] as int > r0 then s[|s| - 1] as int else r0
  }

  /** Every character of s has a code below 256, as a char of the C source has. */
  ghost predicate Bytes(s: string) {
    forall i | 0 <= i < |s| :: s[i] as int < 256
  }

  /** t after translate[c] = YYTRANSLATE(c) for each character c of s, in order. */
  function Store(t: seq<int>, s: string): (r: seq<int>)
    requires |t| == 256 && Bytes(s)
    ensures |r| == 256
  {
    if |s| == 0 then t
    else
      var c := s[|s| - 1] as int;
      Store(t, s[..|s| - 1])[c := Translate(c)]
  }

  /** Store writes the translation of every character of s and leaves every
      other slot of t as it was. */
  lemma {:induction false} StoreContents(t: seq<int>, s: string)
    requires |t| == 256 && Bytes(s)
    ensures forall i | 0 <= i < |s| :: Store(t, s)[s[i] as int] == Translate(s[i] as int)
    ensures forall c | 0 <= c < 256 && (forall i | 0 <= i < |s| :: s[i] as int != c) :: Store(t, s)[c] == t[c]
  {
    if |s| > 0 {
      var p := s[..|s| - 1];
      StoreContents(t, p);
      assert forall i | 0 <= i < |p| :: p[i] == s[i];
    }
  }

  /** One more character of s: Store writes its slot and MaxCode compares it. */
  lemma StoreStep(t: seq<int>, m: int, s: string, v: nat)
    requires |t| == 256 && Bytes(s) && v < |s|
    ensures Bytes(s[..v]) && Bytes(s[..v + 1])
    ensures Store(t, s[..v + 1]) == Store(t, s[..v])[s[v] as int := Translate(s[v] as int)]
    ensures MaxCode(m, s[..v + 1]) == if s[v] as int > MaxCode(m, s[..v]) then s[v] as int else MaxCode(m, s[..v])
  {
    assert s[..v + 1][..v] == s[..v];
  }

  /** The second loop: each punctuation character mapped as YYTRANSLATE maps
      it; max grows to the largest character code. */
  method TranslatePuncs(translate: array<int>, max0: int) returns (max: int)
    requires translate.Length == 256
    modifies translate
    ensures max == MaxCode(max0, puncs)
    ensures Bytes(puncs) && translate[..] == Store(old(translate[..]), puncs)
  {
    assert Bytes(puncs);
    max := max0;
    var v := 0;
    while v < |puncs|
      invariant 0 <= v <= |puncs|
      invariant max == MaxCode(max0, puncs[..v])
      invariant translate[..] == Store(old(translate[..]), puncs[..v])
    {
      StoreStep(old(translate[..]), max0, puncs, v);
      translate[puncs[v] as int] := Translate(puncs[v] as int);
      max := if puncs[v] as int > max then puncs[v] as int else max;
      v := v + 1;
    }
    assert puncs[..v] == puncs;
  }

  /** The translation table is printed up to the code of '|', the largest
      punctuation character. */
  lemma PrintedUpTo()
    ensures MaxCode(3, puncs) == 124
  {
  }

  /** Every punctuation character has a code in 4 .. 255, above the slots
      the first loop fills. */
  lemma PuncCodes()
    ensures Bytes(puncs)
    ensures forall i | 0 <= i < |puncs| :: 4 <= puncs[i] as int
  {
  }

  /** Filling row state on top of rows 0 .. state - 1 fills rows 0 .. state. */
  lemma RulesAdvance(rg: seq<int>, rn: seq<int>, rg0: seq<int>, rn0: seq<int>, state: StateNum)
    requires |rg| == |rn| == |rg0| == |rn0| == YYNSTATES * YYNTOKENS
    requires RulesUpTo(rg0, rn0, state) && RowWritten(rg, rn, rg0, rn0, state)
    ensures RulesUpTo(rg, rn, state + 1)
  {
    forall s, t | 0 <= s < state + 1 && 0 <= t < YYNTOKENS
      ensures rg[s * YYNTOKENS + t] == RuleGoto(s, t) && rn[s * YYNTOKENS + t] == RuleNr(s, t)
    {
      var i := s * YYNTOKENS + t;
      if s < state {
        assert i < state * YYNTOKENS && rg[i] == rg0[i] && rn[i] == rn0[i];
      } else if yypact(state) == YYPACT_NINF && t == 0 {
        assert rg[i] == rg0[i] && rn[i] == rn0[i];
      }
    }
  }

  /** The tail of main: the translation table from a zeroed buffer. */
  method FillTranslate() returns (translate: array<int>, max: int)
    ensures fresh(translate) && translate.Length == 256 && max == 124
    ensures forall k | 0 <= k < 4 :: translate[k] == Translate(types[k])
    ensures forall i | 0 <= i < |puncs| :: translate[puncs[i] as int] == Translate(puncs[i] as int)
    ensures forall c | 4 <= c < 256 && (forall i | 0 <= i < |puncs| :: puncs[i] as int != c) :: translate[c] == 0
  {
    translate := new int[256](_ => 0);
    max := TranslateKinds(translate);
    ghost var t0 := translate[..];
    max := TranslatePuncs(translate, max);
    PrintedUpTo();
    StoreContents(t0, puncs);
    PuncCodes();
  }

  /** main: the parser-state grid row by row, with the goto row and the rule
      slots of each state, then the translation table. The grid holds what
      the driver does in every state on every token, and the goto grid what
      it enters after every reduction. */
  method GenerateTables() returns (grid: seq<seq<Emit>>, newstate: array2<int>, rulegoto: array<int>,
                                   rulenr: array<int>, translate: array<int>, max: int)
    ensures |grid| == YYNSTATES && forall s | 0 <= s < YYNSTATES :: grid[s] == Row(s)
    ensures newstate.Length0 == YYNSTATES && newstate.Length1 == YYNNTS
    ensures forall s, j | 0 <= s < YYNSTATES && 1 <= j < YYNNTS :: newstate[s, j] == GotoState(s, YYNTOKENS + j)
    ensures forall s | 0 <= s < YYNSTATES :: newstate[s, 0] == yydefgoto(0)
    ensures rulegoto.Length == YYNSTATES * YYNTOKENS && rulenr.Length == YYNSTATES * YYNTOKENS
    ensures RulesUpTo(rulegoto[..], rulenr[..], YYNSTATES)
    ensures translate.Length == 256 && max == 124
    ensures forall k | 0 <= k < 4 :: translate[k] == Translate(types[k])
    ensures forall i | 0 <= i < |puncs| :: translate[puncs[i] as int] == Translate(puncs[i] as int)
    ensures forall c | 4 <= c < 256 && (forall i | 0 <= i < |puncs| :: puncs[i] as int != c) :: translate[c] == 0
  {
    rulegoto := new int[YYNSTATES * YYNTOKENS](_ => 0);
    rulenr := new int[YYNSTATES * YYNTOKENS](_ => 0);
    newstate := new int[YYNSTATES, YYNNTS];
    grid := [];
    var state := 0;
    while state < YYNSTATES
      invariant 0 <= state <= YYNSTATES && |grid| == state
      invariant forall s | 0 <= s < state :: grid[s] == Row(s)
      invariant forall s, j | 0 <= s < state && 1 <= j < YYNNTS :: newstate[s, j] == GotoState(s, YYNTOKENS + j)
      invariant forall s | 0 <= s < state :: newstate[s, 0] == yydefgoto(0)
      invariant RulesUpTo(rulegoto[..], rulenr[..], state)
    {
      GotoRow(state, newstate);
      ghost var rg0, rn0 := rulegoto[..], rulenr[..];
      var row;
      if yypact(state) == YYPACT_NINF {
        row := DefaultRow(state, rulegoto, rulenr);
      } else {
        row := TokenRow(state, rulegoto, rulenr);
      }
      RulesAdvance(rulegoto[..], rulenr[..], rg0, rn0, state);
      grid := grid + [row];
      state := state + 1;
    }
    translate, max := FillTranslate();
  }

  /** The stderr trace line of main's inner loop reads yycheck[v] before v is
      checked against the table: in state 1 on token 0 the index is -14, and in
      state 31 on token 18 it is 81, both outside yycheck, and both rows do
      reach the inner loop. */
  lemma TraceReadsOutside()
    ensures yypact(1) != YYPACT_NINF && yypact(1) + 0 < 0
    ensures yypact(31) != YYPACT_NINF && YYLAST < yypact(31) + 18
  {
  }
}
