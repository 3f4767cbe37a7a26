// A certificate, checked against the tables, that the LALR(1) driver never pops
// below the bottom of its stack and that every goto lands on a state.
//
// The certificate is a summary of the LR(0) kernels of the 41 states, computed
// from the grammar (yyrhs / yyprhs): for each kernel item A -> X1..Xd . Y..
// of a state s it records the pair (d, A). Such an item means that the state
// d positions below s on a well-formed stack has a transition on A.
// Nonterminals are numbered from 0 (yyr1(r) - YYNTOKENS): 0 $accept, 1 input,
// 2 statements, 3 statement, 4 expression, 5 arguments, 6 primary.
// The accept rule 1 is left out: its reduction is the Accept action.
module AvsLr {
  import opened Wrappers
  import opened AvsTables

  /** (d, a) is a kernel item summary of state s. */
  predicate Needs(s: int, d: int, a: int) {
    if s in {1, 2} then d == 1 && a == 6
    else if s in {3, 4, 6, 11} then d == 1 && a == 4
    else if s == 5 then d == 1 && a == 3
    else if s == 8 then d == 1 && (a == 1 || a == 2)
    else if s == 9 then d == 1 && a == 2
    else if s == 10 then d == 1 && (a == 3 || a == 4)
    else if s == 12 then d == 2 && a == 6
    else if 13 <= s <= 15 then (d == 1 || d == 2) && a == 4
    else if s == 17 then d == 2 && a == 2
    else if 18 <= s <= 25 then d == 2 && a == 4
    else if s == 26 then d == 2 && a == 3
    else if s == 27 then d == 1 && (a == 4 || a == 5)
    else if s == 28 then (d == 1 && a == 5) || (d == 3 && a == 6)
    else if s == 29 then d == 3 && a == 4
    else if 30 <= s <= 37 then (d == 1 || d == 3) && a == 4
    else if s == 38 then d == 4 && a == 6
    else if s == 39 then d == 2 && a == 5
    else if s == 40 then (d == 1 && a == 4) || (d == 3 && a == 5)
    else false
  }

  /** State u has a goto on nonterminal a in the LR(0) automaton. */
  predicate HasGoto(u: int, a: int) {
    if u == 0 then a in {1, 2, 3, 4, 6}
    else if u in {3, 4, 6, 39} || 18 <= u <= 25 then a == 4 || a == 6
    else if u == 8 then a in {3, 4, 6}
    else if u == 12 then 4 <= a <= 6
    else false
  }

  /** State s may be pushed directly on top of state u: each item of s either
      continues an item of u or starts at u, and then u has a goto on its nonterminal. */
  predicate Follows(u: int, s: int) {
    forall d, a | 1 <= d <= 4 && 0 <= a < YYNNTS && Needs(s, d, a) ::
      (d >= 2 && Needs(u, d - 1, a)) || (d == 1 && HasGoto(u, a))
  }

  /** Reducing by rule r in state s is covered by the summary: a rule of length
      l >= 1 has its completed item in s, an empty rule starts at s itself. */
  predicate ReduceFits(s: int, r: int)
    requires 1 <= r <= YYNRULES
  {
    var l := yyr2(r);
    var a := yyr1(r) - YYNTOKENS;
    (l >= 1 && Needs(s, l, a)) || (l == 0 && HasGoto(s, a))
  }

  /** The shift targets of each row of yytable, by the row's yypact offset. */
  function RowShifts(n: int): set<int> {
    if n == -14 then {12}
    else if n == -5 then {21, 22, 23, 24, 25}
    else if n == -4 then {38, 39}
    else if n == -1 then {23, 24, 25}
    else if n == 22 then {1, 2, 3, 4, 5, 6}
    else if n == 24 then {1, 2, 3, 4, 6}
    else if n == 35 then {18, 19, 20, 21, 22, 23, 24, 25, 29}
    else if n == 47 then {18, 19, 20, 21, 22, 23, 24, 25, 26}
    else if n == 57 then {18, 19, 20, 21, 22, 23, 24, 25}
    else if n == 63 then {20, 21, 22, 23, 24, 25}
    else {}
  }

  lemma ShiftTargetsLow(s: StateNum, t: Symbol)
    requires yypact(s) in {-14, -5, -4, -1, 22, 23} && TokenAction(s, t).Shift?
    ensures TokenAction(s, t).target in RowShifts(yypact(s))
  {
    var n := yypact(s);
    if n == -14 {
      if t == 0 {} else if t == 1 {} else if t == 2 {} else if t == 3 {} else if t == 4 {} else if t == 5 {} else if t == 6 {} else if t == 7 {} else if t == 8 {} else if t == 9 {} else if t == 10 {} else if t == 11 {} else if t == 12 {} else if t == 13 {} else if t == 14 {} else if t == 15 {} else if t == 16 {} else if t == 17 {} else if t == 18 {}
    } else if n == -5 {
      if t == 0 {} else if t == 1 {} else if t == 2 {} else if t == 3 {} else if t == 4 {} else if t == 5 {} else if t == 6 {} else if t == 7 {} else if t == 8 {} else if t == 9 {} else if t == 10 {} else if t == 11 {} else if t == 12 {} else if t == 13 {} else if t == 14 {} else if t == 15 {} else if t == 16 {} else if t == 17 {} else if t == 18 {}
    } else if n == -4 {
      if t == 0 {} else if t == 1 {} else if t == 2 {} else if t == 3 {} else if t == 4 {} else if t == 5 {} else if t == 6 {} else if t == 7 {} else if t == 8 {} else if t == 9 {} else if t == 10 {} else if t == 11 {} else if t == 12 {} else if t == 13 {} else if t == 14 {} else if t == 15 {} else if t == 16 {} else if t == 17 {} else if t == 18 {}
    } else if n == -1 {
      if t == 0 {} else if t == 1 {} else if t == 2 {} else if t == 3 {} else if t == 4 {} else if t == 5 {} else if t == 6 {} else if t == 7 {} else if t == 8 {} else if t == 9 {} else if t == 10 {} else if t == 11 {} else if t == 12 {} else if t == 13 {} else if t == 14 {} else if t == 15 {} else if t == 16 {} else if t == 17 {} else if t == 18 {}
    } else if n == 22 {
      if t == 0 {} else if t == 1 {} else if t == 2 {} else if t == 3 {} else if t == 4 {} else if t == 5 {} else if t == 6 {} else if t == 7 {} else if t == 8 {} else if t == 9 {} else if t == 10 {} else if t == 11 {} else if t == 12 {} else if t == 13 {} else if t == 14 {} else if t == 15 {} else if t == 16 {} else if t == 17 {} else if t == 18 {}
    } else {
      if t == 0 {} else if t == 1 {} else if t == 2 {} else if t == 3 {} else if t == 4 {} else if t == 5 {} else if t == 6 {} else if t == 7 {} else if t == 8 {} else if t == 9 {} else if t == 10 {} else if t == 11 {} else if t == 12 {} else if t == 13 {} else if t == 14 {} else if t == 15 {} else if t == 16 {} else if t == 17 {} else if t == 18 {}
    }
  }

  lemma ShiftTargetsHigh(s: StateNum, t: Symbol)
    requires yypact(s) in {24, 35, 47, 57, 63} && TokenAction(s, t).Shift?
    ensures TokenAction(s, t).target in RowShifts(yypact(s))
  {
    var n := yypact(s);
    if n == 24 {
      if t == 0 {} else if t == 1 {} else if t == 2 {} else if t == 3 {} else if t == 4 {} else if t == 5 {} else if t == 6 {} else if t == 7 {} else if t == 8 {} else if t == 9 {} else if t == 10 {} else if t == 11 {} else if t == 12 {} else if t == 13 {} else if t == 14 {} else if t == 15 {} else if t == 16 {} else if t == 17 {} else if t == 18 {}
    } else if n == 35 {
      if t == 0 {} else if t == 1 {} else if t == 2 {} else if t == 3 {} else if t == 4 {} else if t == 5 {} else if t == 6 {} else if t == 7 {} else if t == 8 {} else if t == 9 {} else if t == 10 {} else if t == 11 {} else if t == 12 {} else if t == 13 {} else if t == 14 {} else if t == 15 {} else if t == 16 {} else if t == 17 {} else if t == 18 {}
    } else if n == 47 {
      if t == 0 {} else if t == 1 {} else if t == 2 {} else if t == 3 {} else if t == 4 {} else if t == 5 {} else if t == 6 {} else if t == 7 {} else if t == 8 {} else if t == 9 {} else if t == 10 {} else if t == 11 {} else if t == 12 {} else if t == 13 {} else if t == 14 {} else if t == 15 {} else if t == 16 {} else if t == 17 {} else if t == 18 {}
    } else if n == 57 {
      if t == 0 {} else if t == 1 {} else if t == 2 {} else if t == 3 {} else if t == 4 {} else if t == 5 {} else if t == 6 {} else if t == 7 {} else if t == 8 {} else if t == 9 {} else if t == 10 {} else if t == 11 {} else if t == 12 {} else if t == 13 {} else if t == 14 {} else if t == 15 {} else if t == 16 {} else if t == 17 {} else if t == 18 {}
    } else {
      if t == 0 {} else if t == 1 {} else if t == 2 {} else if t == 3 {} else if t == 4 {} else if t == 5 {} else if t == 6 {} else if t == 7 {} else if t == 8 {} else if t == 9 {} else if t == 10 {} else if t == 11 {} else if t == 12 {} else if t == 13 {} else if t == 14 {} else if t == 15 {} else if t == 16 {} else if t == 17 {} else if t == 18 {}
    }
  }

  lemma RowShiftsSoundLow(s: StateNum)
    requires yypact(s) < 24
    ensures forall v | v in RowShifts(yypact(s)) :: 0 <= v < YYNSTATES && v != YYFINAL && Follows(s, v)
  {
    if yypact(s) < 0 {
    } else {
    }
  }

  lemma RowShiftsSoundHigh(s: StateNum)
    requires yypact(s) >= 24
    ensures forall v | v in RowShifts(yypact(s)) :: 0 <= v < YYNSTATES && v != YYFINAL && Follows(s, v)
  {
    if yypact(s) == 24 {
    } else {
    }
  }

  /** Every shift target of a row may follow every state using that row. */
  lemma RowShiftsSound(s: StateNum)
    ensures forall v | v in RowShifts(yypact(s)) :: 0 <= v < YYNSTATES && v != YYFINAL && Follows(s, v)
  {
    if yypact(s) < 24 {
      RowShiftsSoundLow(s);
    } else {
      RowShiftsSoundHigh(s);
    }
  }

  /** The yypact offsets in use. */
  lemma PactRows(s: StateNum)
    ensures yypact(s) in {YYPACT_NINF, -14, -5, -4, -1, 22, 23, 24, 35, 47, 57, 63}
  {
  }

  /** A shift pushes a state other than YYFINAL that may follow the current one. */
  lemma ShiftFits(s: StateNum, t: Symbol)
    requires TokenAction(s, t).Shift?
    ensures TokenAction(s, t).target != YYFINAL && Follows(s, TokenAction(s, t).target)
  {
    var n := yypact(s);
    PactRows(s);
    if n in {-14, -5, -4, -1, 22, 23} {
      ShiftTargetsLow(s, t);
    } else {
      ShiftTargetsHigh(s, t);
    }
    RowShiftsSound(s);
  }

  /** Every reduction a state other than YYFINAL performs is by a real rule whose
      items the summary records. */
  lemma ReduceFitsAction(s: StateNum, t: Symbol)
    requires s != YYFINAL && TokenAction(s, t).Reduce?
    ensures 1 <= TokenAction(s, t).rule <= YYNRULES && ReduceFits(s, TokenAction(s, t).rule)
  {
    TableNeverReduces(s, t);
    DefaultsSound(s);
  }

  /** The default reductions of all states but YYFINAL. */
  lemma DefaultsSound(s: StateNum)
    requires s != YYFINAL && DefaultAction(s).Reduce?
    ensures 1 <= DefaultAction(s).rule <= YYNRULES && ReduceFits(s, DefaultAction(s).rule)
  {
  }

  lemma GotosFromStart(u: StateNum, a: int)
    requires 0 <= a < YYNNTS && HasGoto(u, a) && u in {0, 8, 12}
    ensures var g := GotoState(u, a + YYNTOKENS); g != YYFINAL && Follows(u, g)
  {
    if u == 0 {} else if u == 8 {}
  }

  lemma GotosOnExpressionLow(u: StateNum, a: int)
    requires a == 4 && u in {3, 4, 6, 39}
    ensures var g := GotoState(u, a + YYNTOKENS); g != YYFINAL && Follows(u, g)
  {
    if u == 3 {} else if u == 4 {} else if u == 6 {}
  }

  lemma GotosOnExpressionHigh(u: StateNum, a: int)
    requires a == 4 && 18 <= u <= 25
    ensures var g := GotoState(u, a + YYNTOKENS); g != YYFINAL && Follows(u, g)
  {
    if u <= 21 {
      GotosOnExpressionOperators(u, a, 18);
    } else {
      GotosOnExpressionOperators(u, a, 22);
    }
  }

  lemma GotosOnExpressionOperators(u: StateNum, a: int, lo: int)
    requires a == 4 && lo in {18, 22} && lo <= u < lo + 4
    ensures var g := GotoState(u, a + YYNTOKENS); g != YYFINAL && Follows(u, g)
  {
    if u == lo {} else if u == lo + 1 {} else if u == lo + 2 {}
  }

  lemma GotosOnPrimary(u: StateNum, a: int)
    requires a == 6 && HasGoto(u, a) && !(u in {0, 8, 12})
    ensures var g := GotoState(u, a + YYNTOKENS); g != YYFINAL && Follows(u, g)
  {
    if u == 3 {} else if u == 4 {} else if u == 6 {} else if u == 18 {} else if u == 19 {} else if u == 20 {} else if u == 21 {} else if u == 22 {} else if u == 23 {} else if u == 24 {} else if u == 25 {}
  }

  /** Every goto of the automaton lands on a state other than YYFINAL that may
      follow the state it leaves. */
  lemma GotoFits(u: StateNum, a: int)
    requires 0 <= a < YYNNTS && HasGoto(u, a)
    ensures var g := GotoState(u, a + YYNTOKENS); g != YYFINAL && Follows(u, g)
  {
    if u in {0, 8, 12} {
      GotosFromStart(u, a);
    } else if a == 4 && (u in {3, 4, 6, 39}) {
      GotosOnExpressionLow(u, a);
    } else if a == 4 {
      GotosOnExpressionHigh(u, a);
    } else {
      GotosOnPrimary(u, a);
    }
  }
}
