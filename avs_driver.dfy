// yyparse itself: the stacks as arrays with a top index, the lookahead globals,
// and the goto-driven loop, each label a method proved against the trip
// functions of AvsParser.
module AvsDriver {
  import opened Wrappers
  import opened AvsTables
  import opened AvsLr
  import opened AvsParser

  /** A copy of the first n elements of a into a fresh array of the given size
      (YYSTACK_RELOCATE). */
  method Relocated<T(0)>(a: array<T>, n: int, size: int) returns (b: array<T>)
    requires 0 <= n <= a.Length && n <= size
    ensures fresh(b) && b.Length == size && b[..n] == a[..n]
  {
    b := new T[size];
    var i := 0;
    while i < n
      invariant 0 <= i <= n
      invariant b[..i] == a[..i]
    {
      b[i] := a[i];
      i := i + 1;
    }
  }

  /** The decoding half of yybackup and yydefault: the yytable entry for the
      state and the lookahead when yycheck confirms it, else the default
      reduction; an entry of 0 or YYTABLE_NINF is an error, a negative one a
      reduction, YYFINAL acceptance, any other a shift. */
  method DecodeAction(yystate: StateNum, yytoken: Symbol) returns (a: Action)
    ensures a == TokenAction(yystate, yytoken)
  {
    var yyn := yypact(yystate);
    if yyn == YYPACT_NINF {
      return DefaultAction(yystate);
    }
    yyn := yyn + yytoken;
    if yyn < 0 || YYLAST < yyn || yycheck(yyn) != yytoken {
      return DefaultAction(yystate);
    }
    yyn := yytable(yyn);
    if yyn <= 0 {
      if yyn == 0 || yyn == YYTABLE_NINF {
        a := Error;
      } else {
        a := Reduce(-yyn);
      }
    } else if yyn == YYFINAL {
      a := Accept;
    } else {
      a := Shift(yyn);
    }
  }

  /** The goto of yyreduce: the yytable entry for state u in the portion of
      nonterminal a, when yycheck confirms it, else a's default goto. */
  method GotoOf(u: StateNum, a: int) returns (g: StateNum)
    requires YYNTOKENS < a < YYNTOKENS + YYNNTS
    ensures g == GotoState(u, a)
  {
    var k := yypgoto(a - YYNTOKENS) + u;
    if 0 <= k <= YYLAST && yycheck(k) == u {
      g := yytable(k);
    } else {
      g := yydefgoto(a - YYNTOKENS);
    }
  }

  /** The test in the popping loop of yyerrlab1: the state the yytable entry
      of s for the error token shifts to, when yycheck confirms it. */
  method ErrorShiftOf(s: StateNum) returns (e: Option<StateNum>)
    ensures e == ErrorShift(s)
  {
    var yyn := yypact(s);
    if yyn != YYPACT_NINF {
      yyn := yyn + YYTERROR;
      if 0 <= yyn <= YYLAST && yycheck(yyn) == YYTERROR {
        var entry := yytable(yyn);
        if 0 < entry {
          return Some(entry);
        }
      }
    }
    return None;
  }

  /** The frame of one call of yyparse: its stacks and locals, and the globals
      yychar, yylval and yynerrs. input stands for what yylex has yet to deliver. */
  class Parser {
    var yyss: array<int>
    var yyvs: array<Value>
    var yyssp: int
    var yystacksize: int
    var yychar: int
    var yylval: Value
    var input: seq<LexToken>
    var yyerrstatus: int
    var yynerrs: nat

    /** Both stacks have yystacksize slots and the top index is inside them. */
    ghost predicate Sound()
      reads this
    {
      yyss.Length == yystacksize && yyvs.Length == yystacksize
      && 0 <= yyssp < yystacksize <= YYMAXDEPTH
    }

    /** The configuration the fields stand for: the stacks are the slots up to
        and including the top. */
    function State(): Config
      reads this, yyss, yyvs
      requires Sound()
    {
      Config(Stacks(yyss[..yyssp + 1], yyvs[..yyssp + 1]), yychar, yylval, input,
             yyerrstatus, yynerrs, yystacksize)
    }

    /** The prologue of yyparse: empty lookahead, no error, state 0 pushed
        on stacks of YYINITDEPTH slots (the value slot below it is never set). */
    constructor(tokens: seq<LexToken>)
      ensures Sound() && State() == Init(tokens)
      ensures fresh(yyss) && fresh(yyvs)
    {
      yyss := new int[YYINITDEPTH];
      yyvs := new Value[YYINITDEPTH];
      yystacksize := YYINITDEPTH;
      yyerrstatus := 0;
      yynerrs := 0;
      yychar := YYEMPTY;
      yylval := Garbage;
      input := tokens;
      yyssp := 0;
      new;
      yyss[0] := 0;
      yyvs[0] := Garbage;
    }

    /** The pushes that precede every jump to yynewstate: the value, then
        the state, one slot above the old top. */
    method StoreTop(s: StateNum, v: Value)
      requires Sound() && yyssp + 1 < yystacksize
      modifies this`yyssp, yyss, yyvs
      ensures Sound()
      ensures State() == old(State()).(stacks := Stacks(old(State()).stacks.states + [s], old(State()).stacks.values + [v]))
    {
      yyssp := yyssp + 1;
      yyvs[yyssp] := v;
      yyss[yyssp] := s;
      assert yyss[..yyssp + 1] == old(yyss[..yyssp + 1]) + [s];
      assert yyvs[..yyssp + 1] == old(yyvs[..yyssp + 1]) + [v];
    }

    /** The check of yynewstate: grow full stacks, or return. */
    method GrowIfFull() returns (halted: bool, result: int)
      requires Sound()
      modifies this`yystacksize, this`yyss, this`yyvs
      ensures Sound() && (yyss == old(yyss) || fresh(yyss)) && (yyvs == old(yyvs) || fresh(yyvs))
      ensures Grow(old(State())) == if halted then Halt(result, yynerrs) else Continue(State())
    {
      if yystacksize - 1 <= yyssp {
        var yysize := yyssp + 1;
        if YYMAXDEPTH <= yystacksize {
          return true, 2;
        }
        yystacksize := 2 * yystacksize;
        if YYMAXDEPTH < yystacksize {
          yystacksize := YYMAXDEPTH;
        }
        yyss := Relocated(yyss, yysize, yystacksize);
        yyvs := Relocated(yyvs, yysize, yystacksize);
        if yystacksize - 1 <= yyssp {
          return true, 1;
        }
      }
      return false, 0;
    }

    /** yynewstate, with the value push that precedes every jump to it. */
    method NewState(s: StateNum, v: Value) returns (halted: bool, result: int)
      requires Sound() && yyssp + 1 < yystacksize
      modifies this`yyssp, this`yystacksize, this`yyss, this`yyvs, yyss, yyvs
      ensures Sound() && (yyss == old(yyss) || fresh(yyss)) && (yyvs == old(yyvs) || fresh(yyvs))
      ensures Push(old(State()), s, v) == if halted then Halt(result, yynerrs) else Continue(State())
    {
      StoreTop(s, v);
      halted, result := GrowIfFull();
    }

    /** The shift of yybackup: consume the lookahead unless it is the end of
        input, count down yyerrstatus, and push the state and yylval. */
    method ShiftLookahead(v: StateNum) returns (halted: bool, result: int)
      requires Sound() && yyssp + 1 < yystacksize
      modifies this`yychar, this`yyerrstatus, this`yyssp, this`yystacksize, this`yyss, this`yyvs, yyss, yyvs
      ensures Sound() && (yyss == old(yyss) || fresh(yyss)) && (yyvs == old(yyvs) || fresh(yyvs))
      ensures ShiftToken(old(State()), v) == if halted then Halt(result, yynerrs) else Continue(State())
    {
      ghost var c := State();
      if yychar != YYEOF {
        yychar := YYEMPTY;
      }
      if yyerrstatus != 0 {
        yyerrstatus := yyerrstatus - 1;
      }
      assert ShiftToken(c, v) == Push(State(), v, yylval);
      halted, result := NewState(v, yylval);
      assert c == old(State());
    }

    /** The read half of yybackup: read a lookahead when the state needs one
        and there is none, and translate it. */
    method ReadLookahead(yystate: StateNum) returns (yytoken: Symbol)
      requires Sound() && yyss[yyssp] == yystate
      modifies this`yychar, this`input
      ensures Sound() && (State(), yytoken) == Prepare(old(State()))
    {
      if yypact(yystate) == YYPACT_NINF {
        return 0;
      }
      if yychar == YYEMPTY {
        if |input| == 0 {
          yychar := YYEOF;
        } else {
          yychar, input := input[0].code, input[1..];
        }
      }
      if yychar <= YYEOF {
        yychar, yytoken := YYEOF, YYEOF;
      } else {
        yytoken := Translate(yychar);
      }
    }

    /** The pop of yyreduce: yyssp -= n on both stacks. */
    method PopStack(n: int)
      requires Sound() && 0 <= n <= yyssp
      modifies this`yyssp
      ensures Sound() && yyssp == old(yyssp) - n
      ensures State() == old(State()).(stacks := Stacks(old(State()).stacks.states[..yyssp + 1], old(State()).stacks.values[..yyssp + 1]))
    {
      yyssp := yyssp - n;
    }

    /** yyreduce: take $1 (garbage for an empty rule), pop the right-hand
        side, and push the value and the goto state. */
    method ReduceRule(r: int) returns (halted: bool, result: int)
      requires Sound() && yyssp + 1 < yystacksize && Poppable(State().stacks.states, r)
      modifies this`yyssp, this`yystacksize, this`yyss, this`yyvs, yyss, yyvs
      ensures Sound() && (yyss == old(yyss) || fresh(yyss)) && (yyvs == old(yyvs) || fresh(yyvs))
      ensures ReduceBy(old(State()), r) == if halted then Halt(result, yynerrs) else Continue(State())
    {
      ghost var c := State();
      var yylen := yyr2(r);
      ghost var k := |c.stacks.states| - yylen;
      var yyval := if yylen == 0 then Garbage else yyvs[yyssp + 1 - yylen];
      assert yyval == if yylen == 0 then Garbage else c.stacks.values[k];
      PopStack(yylen);
      ghost var c1 := State();
      var yystate := GotoOf(yyss[yyssp], yyr1(r));
      assert c1 == c.(stacks := Stacks(c.stacks.states[..k], c.stacks.values[..k])) && yystate == GotoState(c.stacks.states[k - 1], yyr1(r));
      assert ReduceBy(c, r) == Push(c1, yystate, yyval);
      halted, result := NewState(yystate, yyval);
      assert c == old(State());
    }

    /** The popping loop of yyerrlab1: pop until the top state shifts the
        error token, which it returns, or until the bottom state cannot. */
    method PopToErrorShift() returns (found: bool, yyn: StateNum)
      requires Sound() && States(State().stacks.states)
      modifies this`yyssp
      ensures Sound() && yyssp <= old(yyssp)
      ensures Recover(old(State()).stacks.states, old(State()).stacks.values)
        == if found then Some((State().stacks.states, State().stacks.values, yyn)) else None
    {
      ghost var c := State();
      while true
        invariant Sound() && 0 <= yyssp <= old(yyssp) && States(yyss[..yyssp + 1])
        invariant Recover(c.stacks.states, c.stacks.values) == Recover(yyss[..yyssp + 1], yyvs[..yyssp + 1])
        decreases yyssp
      {
        ghost var st, vs := yyss[..yyssp + 1], yyvs[..yyssp + 1];
        RecoverTop(st, vs);
        var e := ErrorShiftOf(yyss[yyssp]);
        match e {
          case Some(n) => return true, n;
          case None =>
        }
        if yyssp == 0 {
          return false, 0;
        }
        assert st[..yyssp] == yyss[..yyssp] && vs[..yyssp] == yyvs[..yyssp];
        yyssp := yyssp - 1;
      }
    }

    /** yyerrlab1: pop states until one shifts the error token, then shift it
        (or accept, when that state is YYFINAL); return 1 once the stack is
        exhausted. */
    method ErrLab1() returns (halted: bool, result: int)
      requires Sound() && yyssp + 1 < yystacksize && States(State().stacks.states)
      modifies this`yyerrstatus, this`yyssp, this`yystacksize, this`yyss, this`yyvs, yyss, yyvs
      ensures Sound() && (yyss == old(yyss) || fresh(yyss)) && (yyvs == old(yyvs) || fresh(yyvs))
      ensures ErrorRecover(old(State())) == if halted then Halt(result, yynerrs) else Continue(State())
    {
      yyerrstatus := 3;
      var found, yyn := PopToErrorShift();
      if !found {
        return true, 1;
      }
      if yyn == YYFINAL {
        return true, 0;
      }
      halted, result := NewState(yyn, yylval);
    }

    /** The end-of-input branch of yyerrlab: pop the rest of the stack. The
        source pops before it compares with the bottom, this loop compares
        first; the two agree on every stack of two or more entries, which is
        every stack the branch can see: yyerrstatus is 3 only after the error
        token was shifted, and with these tables it never is (NoErrorShift). */
    method Unwind()
      requires Sound()
      modifies this`yyssp
      ensures Sound() && yyssp == 0
    {
      while 0 < yyssp
        invariant Sound()
        decreases yyssp
      {
        yyssp := yyssp - 1;
      }
    }

    /** yyerrlab: count the error unless recovering; after a failed attempt
        to resume, discard the lookahead, or unwind and return 1 at the end of
        input. */
    method ErrLab() returns (halted: bool, result: int)
      requires Sound() && yyssp + 1 < yystacksize && States(State().stacks.states)
      modifies this`yynerrs, this`yychar, this`yyerrstatus, this`yyssp, this`yystacksize, this`yyss, this`yyvs, yyss, yyvs
      ensures Sound() && (yyss == old(yyss) || fresh(yyss)) && (yyvs == old(yyvs) || fresh(yyvs))
      ensures SyntaxError(old(State())) == if halted then Halt(result, yynerrs) else Continue(State())
    {
      if yyerrstatus == 0 {
        yynerrs := yynerrs + 1;
      }
      if yyerrstatus == 3 {
        if yychar <= YYEOF {
          if yychar == YYEOF {
            Unwind();
            return true, 1;
          }
        } else {
          yychar := YYEMPTY;
        }
      }
      halted, result := ErrLab1();
    }

    /** One trip of the loop of yyparse, from yybackup to the next yybackup or
        to a return. */
    method Trip() returns (halted: bool, result: int)
      requires Sound() && Valid(State())
      modifies this, yyss, yyvs
      ensures Sound() && (yyss == old(yyss) || fresh(yyss)) && (yyvs == old(yyvs) || fresh(yyvs))
      ensures Step(old(State())) == if halted then Halt(result, yynerrs) else Continue(State())
    {
      ghost var c := State();
      var yystate: StateNum := yyss[yyssp];
      var yytoken := ReadLookahead(yystate);
      PrepareKeepsStacks(c);
      StepCases(c);
      var a := DecodeAction(yystate, yytoken);
      match a
      case Accept =>
        return true, 0;
      case Shift(v) =>
        halted, result := ShiftLookahead(v);
      case Error =>
        halted, result := ErrLab();
      case Reduce(r) =>
        halted, result := ReduceRule(r);
    }
  }

  /** yyparse on a token sequence, stopped after at most maxTrips trips: the
      outcome is that of the trip functions. */
  method Parse(tokens: seq<LexToken>, maxTrips: nat) returns (o: Outcome)
    ensures o == Run(Init(tokens), maxTrips)
  {
    var p := new Parser(tokens);
    InitValid(tokens);
    var trips := 0;
    while trips < maxTrips
      invariant trips <= maxTrips && p.Sound() && fresh(p.yyss) && fresh(p.yyvs)
      invariant Run(Init(tokens), trips) == Continue(p.State())
    {
      var halted, result := p.Trip();
      trips := trips + 1;
      if halted {
        RunHalted(Init(tokens), trips, maxTrips);
        return Halt(result, p.yynerrs);
      }
    }
    o := Continue(p.State());
  }
}
