// The yyparse loop of the AVS grammar's Bison parser, one trip at a time:
// from yybackup (a state on top of the stack, the lookahead perhaps read)
// to the next yybackup or to a return. Stack safety rests on the LR certificate.
module AvsParser {
  import opened Wrappers
  import opened AvsTables
  import opened AvsLr

  const YYINITDEPTH := 200
  const YYMAXDEPTH := 10000

  /** A semantic value. The only one the parser ever holds is the untouched
      global yylval (or an uninitialised slot): yylex stores its token's value
      through a local pointer and never writes yylval. */
  datatype Value = Garbage

  /** A token as yylex returns it: its code. */
  datatype LexToken = LexToken(code: int)

  /** The state stack yyss and the value stack yyvs, bottom first. */
  datatype Stacks = Stacks(states: seq<int>, values: seq<Value>)

  /** The parser's state at yybackup: the stacks, the lookahead globals
      yychar and yylval, what yylex has not delivered yet, yyerrstatus,
      yynerrs and yystacksize. */
  datatype Config = Config(
    stacks: Stacks,
    yychar: int,
    yylval: Value,
    input: seq<LexToken>,
    errstatus: int,
    nerrs: nat,
    stacksize: int)

  /** The next configuration, or the value yyparse returns together with yynerrs. */
  datatype Outcome = Continue(next: Config) | Halt(result: int, nerrs: nat)

  function Top(st: seq<int>): int
    requires |st| >= 1
  {
    st[|st| - 1]
  }

  /** Every state on the stack is entered legitimately: its kernel items reach
      down to states with the matching goto, and YYFINAL is never pushed. */
  ghost predicate StackShaped(st: seq<int>) {
    |st| >= 1
    && (forall i | 0 <= i < |st| :: 0 <= st[i] < YYNSTATES && st[i] != YYFINAL)
    && (forall i, d, a | 0 <= i < |st| && 1 <= d <= 4 && 0 <= a < YYNNTS && Needs(st[i], d, a) ::
          d <= i && HasGoto(st[i - d], a))
  }

  /** Every entry of the stack is a state number. */
  ghost predicate States(st: seq<int>) {
    forall i | 0 <= i < |st| :: 0 <= st[i] < YYNSTATES
  }

  /** The configurations the loop reaches at yybackup. */
  ghost predicate Valid(c: Config) {
    StackShaped(c.stacks.states)
    && |c.stacks.values| == |c.stacks.states|
    && |c.stacks.states| < c.stacksize <= YYMAXDEPTH
  }

  function Init(tokens: seq<LexToken>): Config {
    Config(Stacks([0], [Garbage]), YYEMPTY, Garbage, tokens, 0, 0, YYINITDEPTH)
  }

  /** yylex: the next token's code, or 0 at the end of the input; yylval is
      left as it was. */
  function ReadToken(c: Config): Config {
    if |c.input| == 0 then c.(yychar := YYEOF)
    else c.(yychar := c.input[0].code, input := c.input[1..])
  }

  /** Read a lookahead if there is none; any code <= 0 is the end of input. */
  function Lookahead(c: Config): Config {
    var c1 := if c.yychar == YYEMPTY then ReadToken(c) else c;
    if c1.yychar <= YYEOF then c1.(yychar := YYEOF) else c1
  }

  function LookaheadSymbol(yychar: int): Symbol {
    if yychar <= YYEOF then YYEOF else Translate(yychar)
  }

  /** The check of yynewstate: when the stacks are full, return 2 at
      YYMAXDEPTH, else double them (capped at YYMAXDEPTH) and return 1 if they
      are still full. */
  function Grow(c: Config): Outcome {
    if |c.stacks.states| < c.stacksize then Continue(c)
    else if YYMAXDEPTH <= c.stacksize then Halt(2, c.nerrs)
    else
      var size := if YYMAXDEPTH < 2 * c.stacksize then YYMAXDEPTH else 2 * c.stacksize;
      if size <= |c.stacks.states| then Halt(1, c.nerrs)
      else Continue(c.(stacksize := size))
  }

  /** yynewstate: push the semantic value and the state, then grow the stacks
      when they are full. */
  function Push(c: Config, s: StateNum, v: Value): Outcome {
    Grow(c.(stacks := Stacks(c.stacks.states + [s], c.stacks.values + [v])))
  }

  /** Shift the lookahead into state s. */
  function ShiftToken(c: Config, s: StateNum): Outcome {
    var c1 := c.(yychar := if c.yychar != YYEOF then YYEMPTY else c.yychar,
                 errstatus := if c.errstatus != 0 then c.errstatus - 1 else c.errstatus);
    Push(c1, s, c.yylval)
  }

  lemma ShapedPush(st: seq<int>, s: StateNum)
    requires StackShaped(st) && s != YYFINAL && Follows(Top(st), s)
    ensures StackShaped(st + [s])
  {
    var st' := st + [s];
    forall i, d, a | 0 <= i < |st'| && 1 <= d <= 4 && 0 <= a < YYNNTS && Needs(st'[i], d, a)
      ensures d <= i && HasGoto(st'[i - d], a)
    {
      if i < |st| {
        assert st'[i] == st[i] && st'[i - d] == st[i - d];
      } else if d >= 2 {
        assert Needs(st[|st| - 1], d - 1, a);
      }
    }
  }

  lemma ShapedPrefix(st: seq<int>, n: int)
    requires StackShaped(st) && 1 <= n <= |st|
    ensures StackShaped(st[..n])
  {
    var p := st[..n];
    forall i, d, a | 0 <= i < |p| && 1 <= d <= 4 && 0 <= a < YYNNTS && Needs(p[i], d, a)
      ensures d <= i && HasGoto(p[i - d], a)
    {
      assert p[i] == st[i];
    }
  }

  /** A reduction the certificate covers leaves at least one state below the
      popped part, and that state has a goto on the rule's nonterminal. */
  lemma ShapedReduce(st: seq<int>, r: int)
    requires StackShaped(st) && 1 <= r <= YYNRULES && ReduceFits(Top(st), r)
    ensures Reducible(st, r)
  {
    var l, a := yyr2(r), yyr1(r) - YYNTOKENS;
    if l >= 1 {
      assert Needs(st[|st| - 1], l, a);
    }
  }

  /** Rule r can be reduced on stack st: the stack holds more than the rule's
      right-hand side, and the state below it has a goto on the rule's left-hand side. */
  ghost predicate Reducible(st: seq<int>, r: int) {
    Poppable(st, r) && HasGoto(st[|st| - 1 - yyr2(r)], yyr1(r) - YYNTOKENS)
  }

  /** Rule r leaves a state below its right-hand side, and its left-hand side
      is a nonterminal other than $accept. */
  ghost predicate Poppable(st: seq<int>, r: int) {
    1 <= r <= YYNRULES && yyr2(r) < |st| && YYNTOKENS < yyr1(r) < YYNTOKENS + YYNNTS
    && 0 <= st[|st| - 1 - yyr2(r)] < YYNSTATES
  }

  /** yyreduce once the rule is looked up: pop l states and values, push $1
      (garbage when l is 0) and the goto state g. */
  function PopPush(c: Config, l: int, g: StateNum): Outcome
    requires |c.stacks.values| == |c.stacks.states| && 0 <= l < |c.stacks.states|
  {
    var k := |c.stacks.states| - l;
    Push(c.(stacks := Stacks(c.stacks.states[..k], c.stacks.values[..k])), g, if l == 0 then Garbage else c.stacks.values[k])
  }

  /** yyreduce: pop yyr2(r) states and values, push $1 (garbage for an empty
      rule) and the goto state. */
  function ReduceBy(c: Config, r: int): Outcome
    requires |c.stacks.values| == |c.stacks.states| && Poppable(c.stacks.states, r)
  {
    var l := yyr2(r);
    PopPush(c, l, GotoState(c.stacks.states[|c.stacks.states| - 1 - l], yyr1(r)))
  }

  /** The popping loop of yyerrlab1: the shortened stacks and the state that
      shifts the error token, or None once the bottom state cannot. */
  function Recover(st: seq<int>, vs: seq<Value>): Option<(seq<int>, seq<Value>, StateNum)>
    requires |st| >= 1 && |vs| == |st| && States(st)
    decreases |st|
  {
    match ErrorShift(Top(st))
    case Some(n) => Some((st, vs, n))
    case None => if |st| == 1 then None else Recover(st[..|st| - 1], vs[..|vs| - 1])
  }

  /** One round of the popping loop: a top state that shifts the error token
      ends it, one that does not is popped (the bottom one ends it with None). */
  lemma RecoverTop(st: seq<int>, vs: seq<Value>)
    requires |st| >= 1 && |vs| == |st| && States(st)
    ensures ErrorShift(Top(st)).Some? ==> Recover(st, vs) == Some((st, vs, ErrorShift(Top(st)).value))
    ensures ErrorShift(Top(st)).None? && |st| == 1 ==> Recover(st, vs) == None
    ensures ErrorShift(Top(st)).None? && |st| > 1 ==>
      States(st[..|st| - 1]) && Recover(st, vs) == Recover(st[..|st| - 1], vs[..|vs| - 1])
  {
  }

  /** yyerrlab1: enter recovery, pop to a state that shifts the error token. */
  function ErrorRecover(c: Config): Outcome
    requires |c.stacks.states| >= 1 && |c.stacks.values| == |c.stacks.states| && States(c.stacks.states)
  {
    var c1 := c.(errstatus := 3);
    match Recover(c1.stacks.states, c1.stacks.values)
    case None => Halt(1, c1.nerrs)
    case Some((st, vs, n)) =>
      if n == YYFINAL then Halt(0, c1.nerrs)
      else Push(c1.(stacks := Stacks(st, vs)), n, c1.yylval)
  }

  /** yyerrlab: count the error unless recovering; after a failed recovery attempt
      discard the lookahead, or abort at the end of input. */
  function SyntaxError(c: Config): Outcome
    requires |c.stacks.states| >= 1 && |c.stacks.values| == |c.stacks.states| && States(c.stacks.states)
  {
    var c1 := if c.errstatus == 0 then c.(nerrs := c.nerrs + 1) else c;
    if c1.errstatus == 3 then
      if c1.yychar <= YYEOF then
        if c1.yychar == YYEOF then Halt(1, c1.nerrs)
        else ErrorRecover(c1)
      else ErrorRecover(c1.(yychar := YYEMPTY))
    else ErrorRecover(c1)
  }

  /** The lookahead symbol a state acts on; states whose yypact is NINF do not
      read one, and their action does not depend on it. */
  function Prepare(c: Config): (Config, Symbol)
    requires |c.stacks.states| >= 1 && 0 <= Top(c.stacks.states) < YYNSTATES
  {
    if yypact(Top(c.stacks.states)) == YYPACT_NINF then (c, 0)
    else var c1 := Lookahead(c); (c1, LookaheadSymbol(c1.yychar))
  }

  /** One trip through the loop of yyparse, from yybackup to the next yybackup
      or to a return. */
  function Step(c: Config): Outcome
    requires Valid(c)
  {
    var s := Top(c.stacks.states);
    var (c1, t) := Prepare(c);
    match TokenAction(s, t)
    case Accept => Halt(0, c1.nerrs)
    case Shift(v) => ShiftToken(c1, v)
    case Error => SyntaxError(c1)
    case Reduce(r) =>
      ReduceRoom(c);
      ReduceBy(c1, r)
  }

  /** The outcome of at most trips trips from c: the value yyparse returns
      with yynerrs, or the configuration reached, which stays valid. */
  function Run(c: Config, trips: nat): (o: Outcome)
    requires Valid(c)
    ensures o.Continue? ==> Valid(o.next)
    decreases trips
  {
    if trips == 0 then Continue(c)
    else
      match Run(c, trips - 1)
      case Halt(r, k) => Halt(r, k)
      case Continue(n) =>
        StepPreservesValid(n);
        Step(n)
  }

  /** On a valid stack every reduction has room to pop. */
  lemma ReduceRoom(c: Config)
    requires Valid(c) && ActionOf(c).Reduce?
    ensures Poppable(c.stacks.states, ActionOf(c).rule)
  {
    var s, t := Top(c.stacks.states), Prepare(c).1;
    ReduceFitsAction(s, t);
    ShapedReduce(c.stacks.states, TokenAction(s, t).rule);
  }

  /** Step by the action it takes. */
  lemma StepCases(c: Config)
    requires Valid(c)
    ensures ActionOf(c) == Accept ==> Step(c) == Halt(0, c.nerrs)
    ensures ActionOf(c).Shift? ==> Step(c) == ShiftToken(Prepare(c).0, ActionOf(c).target)
    ensures ActionOf(c) == Error ==> Step(c) == SyntaxError(Prepare(c).0)
    ensures ActionOf(c).Reduce? ==>
      Poppable(Prepare(c).0.stacks.states, ActionOf(c).rule) && Step(c) == ReduceBy(Prepare(c).0, ActionOf(c).rule)
  {
    PrepareKeepsStacks(c);
    if ActionOf(c).Reduce? {
      ReduceRoom(c);
    }
  }

  lemma PrepareKeepsStacks(c: Config)
    requires |c.stacks.states| >= 1 && 0 <= Top(c.stacks.states) < YYNSTATES
    ensures Prepare(c).0.stacks == c.stacks
    ensures Prepare(c).0.stacksize == c.stacksize && Prepare(c).0.errstatus == c.errstatus
    ensures Prepare(c).0.nerrs == c.nerrs
  {
  }

  lemma PushValid(c: Config, s: StateNum, v: Value)
    requires StackShaped(c.stacks.states) && |c.stacks.values| == |c.stacks.states| && |c.stacks.states| < c.stacksize <= YYMAXDEPTH
    requires s != YYFINAL && Follows(Top(c.stacks.states), s)
    ensures Push(c, s, v).Continue? ==> Valid(Push(c, s, v).next)
  {
    ShapedPush(c.stacks.states, s);
  }

  lemma {:induction false} RecoverNever(st: seq<int>, vs: seq<Value>)
    requires |st| >= 1 && |vs| == |st| && States(st)
    ensures Recover(st, vs) == None
    decreases |st|
  {
    NoErrorShift(Top(st));
    if |st| > 1 {
      RecoverNever(st[..|st| - 1], vs[..|vs| - 1]);
    }
  }

  /** Every syntax error makes yyparse return 1: no state of this grammar
      shifts the error token, so recovery pops the whole stack. The error is
      counted when the parser was not already recovering. */
  lemma SyntaxErrorAborts(c: Config)
    requires |c.stacks.states| >= 1 && |c.stacks.values| == |c.stacks.states| && States(c.stacks.states)
    ensures SyntaxError(c) == Halt(1, if c.errstatus == 0 then c.nerrs + 1 else c.nerrs)
  {
    RecoverNever(c.stacks.states, c.stacks.values);
  }

  lemma ShiftValid(c: Config, s: StateNum)
    requires Valid(c) && s != YYFINAL && Follows(Top(c.stacks.states), s)
    ensures ShiftToken(c, s).Continue? ==> Valid(ShiftToken(c, s).next)
  {
    PushValid(c.(yychar := if c.yychar != YYEOF then YYEMPTY else c.yychar,
                 errstatus := if c.errstatus != 0 then c.errstatus - 1 else c.errstatus), s, c.yylval);
  }

  lemma ShapedPopPush(st: seq<int>, k: int, g: StateNum)
    requires StackShaped(st) && 1 <= k <= |st| && g != YYFINAL && Follows(st[k - 1], g)
    ensures StackShaped(st[..k] + [g])
  {
    ShapedPrefix(st, k);
    ShapedPush(st[..k], g);
  }

  lemma PopPushValid(c: Config, l: int, g: StateNum)
    requires Valid(c) && 0 <= l < |c.stacks.states| && g != YYFINAL && Follows(c.stacks.states[|c.stacks.states| - 1 - l], g)
    ensures PopPush(c, l, g).Continue? ==> Valid(PopPush(c, l, g).next)
  {
    PopPushBounds(c, l, g);
    ShapedPopPush(c.stacks.states, |c.stacks.states| - l, g);
  }

  lemma ReduceValid(c: Config, r: int)
    requires Valid(c) && Reducible(c.stacks.states, r)
    ensures ReduceBy(c, r).Continue? ==> Valid(ReduceBy(c, r).next)
  {
    var l, a := yyr2(r), yyr1(r);
    var u := c.stacks.states[|c.stacks.states| - 1 - l];
    GotoFits(u, a - YYNTOKENS);
    var g := GotoState(u, a);
    assert ReduceBy(c, r) == PopPush(c, l, g);
    PopPushValid(c, l, g);
  }

  /** Every trip that does not return keeps the stack invariant. */
  lemma StepPreservesValid(c: Config)
    requires Valid(c)
    ensures Step(c).Continue? ==> Valid(Step(c).next)
  {
    var s := Top(c.stacks.states);
    var (c1, t) := Prepare(c);
    PrepareKeepsStacks(c);
    match TokenAction(s, t)
    case Accept =>
    case Shift(v) =>
      ShiftFits(s, t);
      ShiftValid(c1, v);
    case Error =>
      SyntaxErrorAborts(c1);
    case Reduce(r) =>
      ReduceFitsAction(s, t);
      ShapedReduce(c1.stacks.states, r);
      ReduceValid(c1, r);
  }



  /** The action the top state takes in a configuration. */
  function ActionOf(c: Config): Action
    requires |c.stacks.states| >= 1 && 0 <= Top(c.stacks.states) < YYNSTATES
  {
    TokenAction(Top(c.stacks.states), Prepare(c).1)
  }

  function Min(x: int, y: int): int {
    if x <= y then x else y
  }

  lemma InitValid(tokens: seq<LexToken>)
    ensures Valid(Init(tokens))
  {
  }

  /** yynewstate returns only on overflow, and then only once the stacks are at
      YYMAXDEPTH; otherwise the capacity stays or doubles up to YYMAXDEPTH. */
  lemma PushBounds(c: Config, s: StateNum, v: Value)
    requires |c.stacks.states| < c.stacksize <= YYMAXDEPTH
    ensures Push(c, s, v).Halt? ==>
      Push(c, s, v) == Halt(2, c.nerrs) && c.stacksize == YYMAXDEPTH && |c.stacks.states| + 1 == YYMAXDEPTH
    ensures Push(c, s, v).Continue? ==>
      var n := Push(c, s, v).next;
      n.stacks.states == c.stacks.states + [s] && n.stacks.values == c.stacks.values + [v]
      && n.yychar == c.yychar && n.yylval == c.yylval && n.input == c.input
      && n.errstatus == c.errstatus && n.nerrs == c.nerrs
      && (n.stacksize == c.stacksize
          || (|c.stacks.states| + 1 == c.stacksize && n.stacksize == Min(2 * c.stacksize, YYMAXDEPTH)))
      && |n.stacks.states| < n.stacksize <= YYMAXDEPTH
  {
  }

  /** yyparse's result codes: 0 only by accepting, 1 exactly on a syntax error
      (the abort after the stack relocation cannot happen), 2 only when the
      stacks have reached YYMAXDEPTH. A syntax error counts one more error
      unless the parser was already recovering. */
  lemma StepResult(c: Config)
    requires Valid(c)
    ensures Step(c).Halt? ==> Step(c).result in {0, 1, 2}
    ensures (Step(c).Halt? && Step(c).result == 0) <==> ActionOf(c) == Accept
    ensures (Step(c).Halt? && Step(c).result == 1) <==> ActionOf(c) == Error
    ensures Step(c).Halt? && Step(c).result == 2 ==> c.stacksize == YYMAXDEPTH && |c.stacks.states| == YYMAXDEPTH - 1
    ensures ActionOf(c) == Error ==> Step(c) == Halt(1, if c.errstatus == 0 then c.nerrs + 1 else c.nerrs)
    ensures Step(c).Halt? && ActionOf(c) != Error ==> Step(c).nerrs == c.nerrs
  {
    var s := Top(c.stacks.states);
    var (c1, t) := Prepare(c);
    PrepareKeepsStacks(c);
    match TokenAction(s, t)
    case Accept =>
    case Shift(v) =>
      PushBounds(c1.(yychar := if c1.yychar != YYEOF then YYEMPTY else c1.yychar,
                     errstatus := if c1.errstatus != 0 then c1.errstatus - 1 else c1.errstatus), v, c1.yylval);
    case Error =>
      SyntaxErrorAborts(c1);
    case Reduce(r) =>
      ReduceRoom(c);
      ReduceBounds(c1, r);
  }

  lemma PopPushBounds(c: Config, l: int, g: StateNum)
    requires |c.stacks.values| == |c.stacks.states| && |c.stacks.states| < c.stacksize <= YYMAXDEPTH && 0 <= l < |c.stacks.states|
    ensures PopPush(c, l, g).Halt? ==>
      PopPush(c, l, g) == Halt(2, c.nerrs) && c.stacksize == YYMAXDEPTH && |c.stacks.states| == YYMAXDEPTH - 1
    ensures PopPush(c, l, g).Continue? ==>
      var n := PopPush(c, l, g).next;
      var k := |c.stacks.states| - l;
      0 < k
      && n.stacks.states == c.stacks.states[..k] + [g]
      && n.stacks.values == c.stacks.values[..k] + [if l == 0 then Garbage else c.stacks.values[k]]
      && n.yychar == c.yychar && n.yylval == c.yylval && n.input == c.input
      && n.errstatus == c.errstatus && n.nerrs == c.nerrs
      && (n.stacksize == c.stacksize
          || (|c.stacks.states| + 1 == c.stacksize && n.stacksize == Min(2 * c.stacksize, YYMAXDEPTH)))
      && |n.stacks.states| < n.stacksize <= YYMAXDEPTH
  {
    var k := |c.stacks.states| - l;
    PushBounds(c.(stacks := Stacks(c.stacks.states[..k], c.stacks.values[..k])), g, if l == 0 then Garbage else c.stacks.values[k]);
  }

  lemma ReduceBounds(c: Config, r: int)
    requires |c.stacks.values| == |c.stacks.states| && |c.stacks.states| < c.stacksize <= YYMAXDEPTH && Poppable(c.stacks.states, r)
    ensures ReduceBy(c, r).Halt? ==>
      ReduceBy(c, r) == Halt(2, c.nerrs) && c.stacksize == YYMAXDEPTH && |c.stacks.states| == YYMAXDEPTH - 1
    ensures ReduceBy(c, r).Continue? ==>
      var n, l := ReduceBy(c, r).next, yyr2(r);
      var k := |c.stacks.states| - l;
      0 < k && YYNTOKENS < yyr1(r) < YYNTOKENS + YYNNTS
      && n.stacks.states == c.stacks.states[..k] + [GotoState(c.stacks.states[k - 1], yyr1(r))]
      && n.stacks.values == c.stacks.values[..k] + [if l == 0 then Garbage else c.stacks.values[k]]
      && n.yychar == c.yychar && n.yylval == c.yylval && n.input == c.input
      && n.errstatus == c.errstatus && n.nerrs == c.nerrs
      && (n.stacksize == c.stacksize
          || (|c.stacks.states| + 1 == c.stacksize && n.stacksize == Min(2 * c.stacksize, YYMAXDEPTH)))
      && |n.stacks.states| < n.stacksize <= YYMAXDEPTH
  {
    var l := yyr2(r);
    PopPushBounds(c, l, GotoState(c.stacks.states[|c.stacks.states| - 1 - l], yyr1(r)));
  }

  /** A reduction by rule r pops exactly yyr2(r) states and values and pushes
      one of each: the goto state, and $1 (garbage for an empty rule). */
  lemma ReduceStep(c: Config)
    requires Valid(c) && ActionOf(c).Reduce? && Step(c).Continue?
    ensures
      var r, n := ActionOf(c).rule, Step(c).next;
      1 <= r <= YYNRULES && YYNTOKENS < yyr1(r) < YYNTOKENS + YYNNTS &&
      var l := yyr2(r);
      var k := |c.stacks.states| - l;
      0 < k && |n.stacks.states| == k + 1 && |n.stacks.values| == k + 1
      && n.stacks.states[..k] == c.stacks.states[..k] && n.stacks.values[..k] == c.stacks.values[..k]
      && n.stacks.values[k] == (if l == 0 then Garbage else c.stacks.values[k])
      && n.stacks.states[k] == GotoState(c.stacks.states[k - 1], yyr1(r))
  {
    var s := Top(c.stacks.states);
    var (c1, t) := Prepare(c);
    PrepareKeepsStacks(c);
    var r := TokenAction(s, t).rule;
    ReduceRoom(c);
    ReduceBounds(c1, r);
    var k := |c.stacks.states| - yyr2(r);
    var n := Step(c).next;
    assert n.stacks.states[..k] == c.stacks.states[..k] && n.stacks.values[..k] == c.stacks.values[..k];
  }

  /** A shift pushes the target state and the lookahead's value, and consumes
      the lookahead unless it is the end of input. */
  lemma ShiftStep(c: Config)
    requires Valid(c) && ActionOf(c).Shift? && Step(c).Continue?
    ensures
      var v, n, c1 := ActionOf(c).target, Step(c).next, Lookahead(c);
      v != YYFINAL && n.stacks.states == c.stacks.states + [v] && n.stacks.values == c.stacks.values + [c1.yylval]
      && n.yychar == (if c1.yychar == YYEOF then YYEOF else YYEMPTY)
      && n.input == c1.input && n.nerrs == c.nerrs
      && n.errstatus == (if c.errstatus != 0 then c.errstatus - 1 else 0)
  {
    var s := Top(c.stacks.states);
    var (c1, t) := Prepare(c);
    PrepareKeepsStacks(c);
    ShiftFits(s, t);
    var v := TokenAction(s, t).target;
    PushBounds(c1.(yychar := if c1.yychar != YYEOF then YYEMPTY else c1.yychar,
                   errstatus := if c1.errstatus != 0 then c1.errstatus - 1 else c1.errstatus), v, c1.yylval);
  }

  /** Outside recovery, a trip that does not return keeps yyerrstatus at 0 and
      the error count unchanged. */
  lemma StepCalm(c: Config)
    requires Valid(c) && c.errstatus == 0 && Step(c).Continue?
    ensures Step(c).next.errstatus == 0 && Step(c).next.nerrs == c.nerrs
  {
    var s := Top(c.stacks.states);
    var (c1, t) := Prepare(c);
    PrepareKeepsStacks(c);
    match TokenAction(s, t)
    case Accept =>
    case Shift(v) =>
      ShiftStep(c);
    case Error =>
      SyntaxErrorAborts(c1);
    case Reduce(r) =>
      ReduceRoom(c);
      ReduceBounds(c1, r);
  }

  /** How a run from a configuration outside recovery with k0 errors can end. */
  ghost predicate CalmOutcome(o: Outcome, k0: nat) {
    match o
    case Halt(r, k) => r in {0, 1, 2} && k == (if r == 1 then k0 + 1 else k0)
    case Continue(n) => n.errstatus == 0 && n.nerrs == k0
  }

  lemma StepCalmOutcome(c: Config)
    requires Valid(c) && c.errstatus == 0
    ensures CalmOutcome(Step(c), c.nerrs)
  {
    StepResult(c);
    if Step(c).Continue? {
      StepPreservesValid(c);
      StepCalm(c);
    }
  }

  /** A run that has returned stays returned: more trips change nothing. */
  lemma {:induction false} RunHalted(c: Config, k: nat, m: nat)
    requires Valid(c) && k <= m && Run(c, k).Halt?
    ensures Run(c, m) == Run(c, k)
    decreases m
  {
    if k < m {
      RunHalted(c, k, m - 1);
    }
  }

  /** A run seen from its first trip: it ends there when that trip returns,
      and is otherwise a run of one trip fewer from the next configuration. */
  lemma {:induction false} RunFirst(c: Config, trips: nat)
    requires Valid(c) && trips > 0
    ensures Step(c).Halt? ==> Run(c, trips) == Step(c)
    ensures Step(c).Continue? ==> Valid(Step(c).next) && Run(c, trips) == Run(Step(c).next, trips - 1)
    decreases trips
  {
    StepPreservesValid(c);
    if trips > 1 {
      RunFirst(c, trips - 1);
    }
  }

  /** Every run from a configuration outside recovery is calm. */
  lemma {:induction false} RunCalm(c: Config, trips: nat)
    requires Valid(c) && c.errstatus == 0
    ensures CalmOutcome(Run(c, trips), c.nerrs)
    decreases trips
  {
    if trips > 0 {
      RunCalm(c, trips - 1);
      if Run(c, trips - 1).Continue? {
        StepCalmOutcome(Run(c, trips - 1).next);
      }
    }
  }

  /** yyparse reports at most one syntax error, and reports one exactly when it returns 1. */
  lemma ParseErrorCount(tokens: seq<LexToken>, trips: nat)
    ensures Valid(Init(tokens))
    ensures Run(Init(tokens), trips).Halt? ==>
      Run(Init(tokens), trips).nerrs == (if Run(Init(tokens), trips).result == 1 then 1 else 0)
  {
    RunCalm(Init(tokens), trips);
  }



}
