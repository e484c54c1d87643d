/** Statement compilation simulates the source over whole runs, on the emitted
    bytes: branches included. */
module StmtProof {
  import opened Words
  import opened Isa
  import opened IsaRoundTrip
  import opened Machine
  import opened Source
  import opened Select
  import opened ExprBasics
  import opened ExprCases
  import opened ExprProof
  import opened Layout

  // --------------------------------------------------- bytes run as the list

  /** The bytes of a well-formed instruction decode to it wherever they are. */
  lemma Fetched(bytes: seq<byte>, off: int, i: Instr, rest: seq<Instr>)
    requires CodeAt(bytes, off, [i] + rest) && Wf(i)
    ensures Decode(bytes[off..]) == Some((i, |Encode(i)|))
    ensures CodeAt(bytes, off + |Encode(i)|, rest)
  {
    hide Encode, EncodeAll, Decode;
    CodeAtSplit(bytes, off, [i], rest);
    EncodeAllOne(i);
    var n := |Encode(i)|;
    assert bytes[off..] == bytes[off..off + n] + bytes[off + n..];
    DecodeEncode(i, bytes[off + n..]);
  }

  /** A straight run of the list is a run of the bytes. */
  lemma {:induction false} Straight(W: World, bytes: seq<byte>, off: int, code: seq<Instr>, s: State)
    requires Good16(s) && CodeAt(bytes, off, code) && AllWf(code)
    requires Run(W, code, s).Some?
    ensures Steps(W, bytes, At(off, s), |code|) == Some(At(off + Size(code), Run(W, code, s).value))
    decreases |code|
  {
    hide Encode, Decode, Step, Wf;
    if code != [] {
      var i, rest := code[0], code[1..];
      assert code == [i] + rest;
      var s1 := Step(W, i, s).value;
      Fetched(bytes, off, i, rest);
      NotAJump(W, i, s);
      assert StepAt(W, bytes, At(off, s)) == Some(At(off + |Encode(i)|, s1));
      AllWfSplit([i], rest);
      Straight(W, bytes, off + |Encode(i)|, rest, s1);
      SizeConcat([i], rest);
      SizeOne(i);
      assert Steps(W, bytes, At(off, s), |code|) == Steps(W, bytes, At(off + |Encode(i)|, s1), |rest|);
    } else {
      EmptySize();
    }
  }

  lemma NotAJump(W: World, i: Instr, s: State)
    requires Good16(s) && Step(W, i, s).Some?
    ensures !i.Jmp? && !i.Jcc? && !i.Ret?
  {}

  lemma JumpAt(W: World, bytes: seq<byte>, off: int, rel: int, s: State)
    requires Good16(s) && CodeAt(bytes, off, [Jmp(rel)]) && I32(rel)
    ensures Steps(W, bytes, At(off, s), 1) == Some(At(off + JMP_SIZE + rel, s))
  {
    hide Decode, Step;
    assert [Jmp(rel)] == [Jmp(rel)] + [];
    Fetched(bytes, off, Jmp(rel), []);
    OneStep(W, bytes, At(off, s));
  }

  lemma BranchAt(W: World, bytes: seq<byte>, off: int, cc: int, rel: int, s: State)
    requires Good16(s) && CodeAt(bytes, off, [Jcc(cc, rel)]) && I32(rel) && 0 <= cc < 16
    requires Cond(cc, s.flags).Some?
    ensures Steps(W, bytes, At(off, s), 1)
         == Some(At(off + JCC_SIZE + (if Cond(cc, s.flags).value then rel else 0), s))
  {
    hide Decode, Step;
    assert [Jcc(cc, rel)] == [Jcc(cc, rel)] + [];
    Fetched(bytes, off, Jcc(cc, rel), []);
    OneStep(W, bytes, At(off, s));
  }

  lemma OneStep(W: World, bytes: seq<byte>, c: Cfg)
    requires Good16(c.s)
    ensures Steps(W, bytes, c, 1) == StepAt(W, bytes, c)
  {
    hide StepAt;
    if StepAt(W, bytes, c).Some? {
      assert Steps(W, bytes, c, 1) == Steps(W, bytes, StepAt(W, bytes, c).value, 0);
    }
  }

  /** Steps compose. */
  lemma Chain(W: World, bytes: seq<byte>, c: Cfg, m: nat, c1: Cfg, n: nat, c2: Cfg)
    requires Good16(c.s) && Good16(c1.s)
    requires Steps(W, bytes, c, m) == Some(c1) && Steps(W, bytes, c1, n) == Some(c2)
    ensures Steps(W, bytes, c, m + n) == Some(c2)
  {
    StepsAdd(W, bytes, c, m, n);
  }

  // -------------------------------------------------------------- conditions

  lemma NegateCond(op: BinOp, f: Flags)
    requires f.Flags?
    ensures Cond(Negate(CompareCC(op)), f).Some?
    ensures Cond(Negate(CompareCC(op)), f).value == !Cond(CompareCC(op), f).value
  {}

  /** The branch of a condition is taken exactly when it is false; RAX and the
      memory are as EvalCond says. */
  lemma CondCorrect(W: World, c: Expr, s: State)
    requires Ready(W, s, 0, Slots(c)) && Fits(c, 0, 0)
    requires EvalCond(W, c, s.mem).Some?
    ensures var r := Run(W, CondCode(c), s);
            var t := EvalCond(W, c, s.mem).value;
            r.Some? && Lands(s, r.value, t.acc, t.mem, Need(c))
            && Cond(SkipCC(c), r.value.flags) == Some(!t.holds)
  {
    hide Run, Step, BinCode, Code, Cond, CmpFlags;
    if c.Bin? && IsCompare(c.op) {
      var a, b, m := BinCorrect(W, c, RAX, 0, 0, 0, s);
      CondMeaning(a, b);
      NegateCond(c.op, CmpFlags(a, b)) by { FlagsDefined(a, b); }
    } else {
      CodeCorrect(W, c, RAX, false, 0, 0, 0, s);
      var v := Eval(W, c, false, s.mem).value;
      var s1 := Run(W, Code(c, RAX, false, 0, 0, 0), s).value;
      TestStep(W, s1);
      ThenOne(W, Code(c, RAX, false, 0, 0, 0), TestRR(RAX, RAX), s);
      var s2 := Step(W, TestRR(RAX, RAX), s1).value;
      KeepsSet(s1, s2, RAX, 0, Need(c));
      KeepsTrans(s, s1, s2, 0, Need(c), 0, Need(c), 0, Need(c));
      CondMeaning(v.v, 0);
    }
  }

  lemma FlagsDefined(a: u64, b: u64)
    ensures CmpFlags(a, b).Flags?
  {}

  lemma TestStep(W: World, s: State)
    requires Good16(s)
    ensures Step(W, TestRR(RAX, RAX), s) == Some(s.(flags := CmpFlags(s.regs[RAX], 0)))
  {
    hide CmpFlags;
  }

  // -------------------------------------------------------------- statements

  /** s' is s after code that leaves v in RAX and the memory m. */
  ghost predicate Lands(s: State, s': State, v: u64, m: Mem, n: nat) {
    Keeps(s, s', 0, n) && s'.regs[RAX] == v && s'.mem == m
  }

  /** The limits of the generator hold for a statement. */
  ghost predicate FitsS(st: Stmt) { NeedS(st) <= 5 && CallsFitS(st) && ArraysFitS(st) }

  /** After `steps` machine steps from offset off the machine is in c, which is
      where outcome o says: behind the code of `size` bytes, `exit` bytes behind
      it after a `return`, or still running when the fuel is used up. */
  ghost predicate Ends(W: World, bytes: seq<byte>, off: int, size: nat, exit: int, s: State,
                       o: Outcome, n: nat, fuel: nat, steps: nat, c: Cfg)
  {
    && Good16(s)
    && Steps(W, bytes, At(off, s), steps) == Some(c) && c.At?
    && match o
       case Normal(acc, m) => c.rip == off + size && Lands(s, c.s, acc, m, n)
       case Finished(v, m) => c.rip == off + size + exit && Lands(s, c.s, v, m, n)
       case OutOfFuel => steps >= fuel
       case Stuck => false
  }

  lemma LandsTrans(s: State, s1: State, s2: State, v1: u64, m1: Mem, n1: nat, v2: u64, m2: Mem, n2: nat, n: nat)
    requires Lands(s, s1, v1, m1, n1) && Lands(s1, s2, v2, m2, n2) && n1 <= n && n2 <= n
    ensures Lands(s, s2, v2, m2, n)
  {
    KeepsTrans(s, s1, s2, 0, n, 0, n1, 0, n2);
  }

  /** A prefix that lands, then code that ends: the whole ends. */
  lemma EndsAfter(W: World, bytes: seq<byte>, off: int, s: State, k: nat, off1: int, s1: State, v1: u64, m1: Mem,
                  n1: nat, size1: nat, exit1: int, o: Outcome, n2: nat, fuel: nat, steps: nat, c: Cfg,
                  size: nat, exit: int, n: nat)
    requires Good16(s) && Steps(W, bytes, At(off, s), k) == Some(At(off1, s1))
    requires Lands(s, s1, v1, m1, n1) && n1 <= n && n2 <= n
    requires Ends(W, bytes, off1, size1, exit1, s1, o, n2, fuel, steps, c)
    requires off1 + size1 == off + size || !o.Normal?
    requires off1 + size1 + exit1 == off + size + exit || !o.Finished?
    ensures Ends(W, bytes, off, size, exit, s, o, n, fuel, k + steps, c)
  {
    hide Steps;
    Chain(W, bytes, At(off, s), k, At(off1, s1), steps, c);
    match o
    case Normal(acc, m) => LandsTrans(s, s1, c.s, v1, m1, n1, acc, m, n2, n);
    case Finished(v, m) => LandsTrans(s, s1, c.s, v1, m1, n1, v, m, n2, n);
    case OutOfFuel =>
  }

  /** The emitted bytes do what the statement means, whatever its nesting: they
      reach the end of the statement or the target of `return` with the same
      memory and RAX, and they run on as long as the source does. */
  lemma StmtCorrect(W: World, bytes: seq<byte>, st: Stmt, off: int, exit: int, s: State, fuel: nat)
    returns (steps: nat, c: Cfg)
    requires CodeAt(bytes, off, StmtCode(st, Some(exit))) && AllWf(StmtCode(st, Some(exit)))
    requires Ready(W, s, 0, SlotsS(st)) && FitsS(st)
    requires Exec(W, st, s.regs[RAX], s.mem, fuel) != Stuck
    ensures Ends(W, bytes, off, StmtSize(st), exit, s, Exec(W, st, s.regs[RAX], s.mem, fuel),
                 NeedS(st), fuel, steps, c)
    decreases fuel, st, 1
  {
    hide Steps, CodeAt, AllWf, Run, Code, Size;
    match st
    case Skip =>
      steps, c := 0, At(off, s);
      NoSteps(W, bytes, c);
    case Seq(a, b) =>
      steps, c := SeqCorrect(W, bytes, st, off, exit, s, fuel);
    case ExprS(e) =>
      steps, c := ExprStmtCorrect(W, bytes, st, off, exit, s, fuel);
    case Return(e) =>
      steps, c := ReturnCorrect(W, bytes, st, off, exit, s, fuel);
    case If(_, _) =>
      steps, c := IfCorrect(W, bytes, st, off, exit, s, fuel);
    case While(_, _) =>
      steps, c := WhileCorrect(W, bytes, st, off, exit, s, fuel);
  }

  lemma NoSteps(W: World, bytes: seq<byte>, c: Cfg)
    requires Good16(c.s)
    ensures Steps(W, bytes, c, 0) == Some(c)
  {}

  lemma SeqParts(st: Stmt)
    requires st.Seq?
    ensures StmtSize(st) == StmtSize(st.first) + StmtSize(st.rest)
    ensures SlotsS(st) == MaxInt(SlotsS(st.first), SlotsS(st.rest))
    ensures NeedS(st) == MaxInt(NeedS(st.first), NeedS(st.rest))
    ensures FitsS(st) <==> FitsS(st.first) && FitsS(st.rest)
    ensures !NoCode(st.rest) && TailReturn(st) ==> TailReturn(st.rest)
  {}

  lemma SeqExec(W: World, st: Stmt, acc: u64, m: Mem, fuel: nat)
    requires st.Seq?
    ensures Exec(W, st, acc, m, fuel) ==
            match Exec(W, st.first, acc, m, fuel)
            case Normal(acc1, m1) => Exec(W, st.rest, acc1, m1, fuel)
            case other => other
  {}

  lemma SeqShape(a: Stmt, b: Stmt, exit: int)
    ensures StmtCode(Seq(a, b), Some(exit)) == StmtCode(a, Some(exit + StmtSize(b))) + StmtCode(b, Some(exit))
  {
    hide Code, CondCode, Size, SkipCC;
  }

  lemma SeqCorrect(W: World, bytes: seq<byte>, st: Stmt, off: int, exit: int, s: State, fuel: nat)
    returns (steps: nat, c: Cfg)
    requires st.Seq?
    requires CodeAt(bytes, off, StmtCode(st, Some(exit))) && AllWf(StmtCode(st, Some(exit)))
    requires Ready(W, s, 0, SlotsS(st)) && FitsS(st)
    requires Exec(W, st, s.regs[RAX], s.mem, fuel) != Stuck
    ensures Ends(W, bytes, off, StmtSize(st), exit, s, Exec(W, st, s.regs[RAX], s.mem, fuel),
                 NeedS(st), fuel, steps, c)
    decreases fuel, st, 0
  {
    hide Steps, CodeAt, AllWf, Size, StmtCode, Exec, StmtSize, SlotsS, NeedS, CallsFitS, ArraysFitS;
    var Seq(a, b) := st;
    var x := exit + StmtSize(b);
    var ca, cb := StmtCode(a, Some(x)), StmtCode(b, Some(exit));
    SeqShape(a, b, exit);
    SeqParts(st);
    SeqExec(W, st, s.regs[RAX], s.mem, fuel);
    CodeAtSplit(bytes, off, ca, cb);
    AllWfSplit(ca, cb);
    StmtSizeOk(a, Some(x));
    var o := Exec(W, a, s.regs[RAX], s.mem, fuel);
    steps, c := StmtCorrect(W, bytes, a, off, x, s, fuel);
    if o.Normal? {
      ReadyKeeps(W, s, c.s, 0, SlotsS(st), SlotsS(b), 0, NeedS(a));
      var off1 := off + StmtSize(a);
      var n2, c2 := StmtCorrect(W, bytes, b, off1, exit, c.s, fuel);
      EndsAfter(W, bytes, off, s, steps, off1, c.s, o.acc, o.mem, NeedS(a), StmtSize(b), exit,
                Exec(W, b, o.acc, o.mem, fuel), NeedS(b), fuel, n2, c2, StmtSize(st), exit, NeedS(st));
      steps, c := steps + n2, c2;
    } else {
      EndsWiden(W, bytes, off, StmtSize(a), x, s, o, NeedS(a), fuel, steps, c, StmtSize(st), exit, NeedS(st));
    }
  }

  lemma EndsWiden(W: World, bytes: seq<byte>, off: int, size1: nat, exit1: int, s: State, o: Outcome, n1: nat,
                  fuel: nat, steps: nat, c: Cfg, size: nat, exit: int, n: nat)
    requires Ends(W, bytes, off, size1, exit1, s, o, n1, fuel, steps, c) && n1 <= n
    requires !o.Normal? && (o.Finished? ==> size1 + exit1 == size + exit)
    ensures Ends(W, bytes, off, size, exit, s, o, n, fuel, steps, c)
  {
    hide Steps;
  }

  lemma ExprStmtCorrect(W: World, bytes: seq<byte>, st: Stmt, off: int, exit: int, s: State, fuel: nat)
    returns (steps: nat, c: Cfg)
    requires st.ExprS?
    requires CodeAt(bytes, off, StmtCode(st, Some(exit))) && AllWf(StmtCode(st, Some(exit)))
    requires Ready(W, s, 0, SlotsS(st)) && FitsS(st)
    requires Exec(W, st, s.regs[RAX], s.mem, fuel) != Stuck
    ensures Ends(W, bytes, off, StmtSize(st), exit, s, Exec(W, st, s.regs[RAX], s.mem, fuel),
                 NeedS(st), fuel, steps, c)
  {
    hide Steps, CodeAt, AllWf, Run, Code, Size, Eval;
    var code := Code(st.e, RAX, true, 0, 0, 0);
    CodeCorrect(W, st.e, RAX, true, 0, 0, 0, s);
    Straight(W, bytes, off, code, s);
    steps, c := |code|, At(off + Size(code), Run(W, code, s).value);
  }

  lemma ReturnCorrect(W: World, bytes: seq<byte>, st: Stmt, off: int, exit: int, s: State, fuel: nat)
    returns (steps: nat, c: Cfg)
    requires st.Return?
    requires CodeAt(bytes, off, StmtCode(st, Some(exit))) && AllWf(StmtCode(st, Some(exit)))
    requires Ready(W, s, 0, SlotsS(st)) && FitsS(st)
    requires Exec(W, st, s.regs[RAX], s.mem, fuel) != Stuck
    ensures Ends(W, bytes, off, StmtSize(st), exit, s, Exec(W, st, s.regs[RAX], s.mem, fuel),
                 NeedS(st), fuel, steps, c)
  {
    hide Steps, CodeAt, Run, Code, Size, Eval;
    var code := Code(st.e, RAX, false, 0, 0, 0);
    CodeAtSplit(bytes, off, code, [Jmp(exit)]);
    AllWfSplit(code, [Jmp(exit)]);
    assert I32(exit) by { assert Wf([Jmp(exit)][0]); }
    hide AllWf;
    CodeCorrect(W, st.e, RAX, false, 0, 0, 0, s);
    Straight(W, bytes, off, code, s);
    var s1, mid := Run(W, code, s).value, off + Size(code);
    JumpAt(W, bytes, mid, exit, s1);
    c := At(mid + JMP_SIZE + exit, s1);
    Chain(W, bytes, At(off, s), |code|, At(mid, s1), 1, c);
    steps := |code| + 1;
  }

  /** The condition of an `if` or `while` and its branch. */
  lemma TestAndBranch(W: World, bytes: seq<byte>, c: Expr, rel: nat, rest: seq<Instr>, off: int, s: State)
    returns (k: nat, s1: State)
    requires CodeAt(bytes, off, CondCode(c) + [Jcc(SkipCC(c), rel)] + rest)
    requires AllWf(CondCode(c) + [Jcc(SkipCC(c), rel)] + rest)
    requires Ready(W, s, 0, Slots(c)) && Fits(c, 0, 0) && EvalCond(W, c, s.mem).Some?
    ensures var t := EvalCond(W, c, s.mem).value;
            var next := off + Size(CondCode(c)) + JCC_SIZE;
            k >= 1 && Lands(s, s1, t.acc, t.mem, Need(c))
            && Steps(W, bytes, At(off, s), k) == Some(At(if t.holds then next else next + rel, s1))
    ensures CodeAt(bytes, off + Size(CondCode(c)) + JCC_SIZE, rest) && AllWf(rest)
  {
    hide Steps, CodeAt, Run, CondCode, Size, EvalCond, Cond;
    var code, j := CondCode(c), Jcc(SkipCC(c), rel);
    AllWfSplit(code + [j], rest);
    AllWfSplit(code, [j]);
    assert Wf([j][0]);
    hide AllWf;
    CodeAtSplit(bytes, off, code + [j], rest);
    CodeAtSplit(bytes, off, code, [j]);
    SizeConcat(code, [j]);
    JumpSizes(SkipCC(c), rel);
    CondCorrect(W, c, s);
    Straight(W, bytes, off, code, s);
    s1 := Run(W, code, s).value;
    var mid := off + Size(code);
    BranchAt(W, bytes, mid, SkipCC(c), rel, s1);
    var t := EvalCond(W, c, s.mem).value;
    var to := At(mid + JCC_SIZE + (if !t.holds then rel else 0), s1);
    Chain(W, bytes, At(off, s), |code|, At(mid, s1), 1, to);
    k := |code| + 1;
  }

  lemma IfCorrect(W: World, bytes: seq<byte>, st: Stmt, off: int, exit: int, s: State, fuel: nat)
    returns (steps: nat, c: Cfg)
    requires st.If?
    requires CodeAt(bytes, off, StmtCode(st, Some(exit))) && AllWf(StmtCode(st, Some(exit)))
    requires Ready(W, s, 0, SlotsS(st)) && FitsS(st)
    requires Exec(W, st, s.regs[RAX], s.mem, fuel) != Stuck
    ensures Ends(W, bytes, off, StmtSize(st), exit, s, Exec(W, st, s.regs[RAX], s.mem, fuel),
                 NeedS(st), fuel, steps, c)
    decreases fuel, st, 0
  {
    hide Steps, CodeAt, AllWf, Run, CondCode, Size, EvalCond;
    var If(cond, body) := st;
    var cb := StmtCode(body, Some(exit));
    assert StmtCode(st, Some(exit)) == CondCode(cond) + [Jcc(SkipCC(cond), StmtSize(body))] + cb;
    hide StmtCode;
    var t := EvalCond(W, cond, s.mem).value;
    var o := Exec(W, st, s.regs[RAX], s.mem, fuel);
    ReadyLess(W, s, 0, SlotsS(st), Slots(cond));
    var k, s1 := TestAndBranch(W, bytes, cond, StmtSize(body), cb, off, s);
    var next := off + Size(CondCode(cond)) + JCC_SIZE;
    if t.holds {
      ReadyKeeps(W, s, s1, 0, SlotsS(st), SlotsS(body), 0, Need(cond));
      var k2, c2 := StmtCorrect(W, bytes, body, next, exit, s1, fuel);
      EndsAfter(W, bytes, off, s, k, next, s1, t.acc, t.mem, Need(cond), StmtSize(body), exit,
                o, NeedS(body), fuel, k2, c2, StmtSize(st), exit, NeedS(st));
      steps, c := k + k2, c2;
    } else {
      steps, c := k, At(next + StmtSize(body), s1);
    }
  }

  lemma WhileExec(W: World, st: Stmt, acc: u64, m: Mem, fuel: nat)
    requires st.While?
    ensures fuel == 0 ==> Exec(W, st, acc, m, fuel) == OutOfFuel
    ensures fuel > 0 ==>
              Exec(W, st, acc, m, fuel) ==
              match EvalCond(W, st.cond, m)
              case None => Stuck
              case Some(t) =>
                if !t.holds then Normal(t.acc, t.mem)
                else
                  match Exec(W, st.body, t.acc, t.mem, fuel - 1)
                  case Normal(acc1, m1) => Exec(W, st, acc1, m1, fuel - 1)
                  case o => o
  {
    hide EvalCond;
  }

  lemma WhileCorrect(W: World, bytes: seq<byte>, st: Stmt, off: int, exit: int, s: State, fuel: nat)
    returns (steps: nat, c: Cfg)
    requires st.While?
    requires CodeAt(bytes, off, StmtCode(st, Some(exit))) && AllWf(StmtCode(st, Some(exit)))
    requires Ready(W, s, 0, SlotsS(st)) && FitsS(st)
    requires Exec(W, st, s.regs[RAX], s.mem, fuel) != Stuck
    ensures Ends(W, bytes, off, StmtSize(st), exit, s, Exec(W, st, s.regs[RAX], s.mem, fuel),
                 NeedS(st), fuel, steps, c)
    decreases fuel, st, 0
  {
    hide Steps, CodeAt, AllWf, Run, CondCode, Size, EvalCond, StmtCode, Exec;
    WhileExec(W, st, s.regs[RAX], s.mem, fuel);
    if fuel == 0 {
      steps, c := 0, At(off, s);
      NoSteps(W, bytes, c);
      return;
    }
    var While(cond, body) := st;
    var x := exit + JMP_SIZE;
    var cb, back := StmtCode(body, Some(x)), [Jmp(Back(StmtSize(st)))];
    WhileShape(st, exit);
    var t := EvalCond(W, cond, s.mem).value;
    ReadyLess(W, s, 0, SlotsS(st), Slots(cond));
    var k, s1 := TestAndBranch(W, bytes, cond, StmtSize(body) + JMP_SIZE, cb + back, off, s);
    var next := off + Size(CondCode(cond)) + JCC_SIZE;
    if !t.holds {
      steps, c := k, At(next + StmtSize(body) + JMP_SIZE, s1);
      return;
    }
    CodeAtSplit(bytes, next, cb, back);
    AllWfSplit(cb, back);
    StmtSizeOk(body, Some(x));
    ReadyKeeps(W, s, s1, 0, SlotsS(st), SlotsS(body), 0, Need(cond));
    var o1 := Exec(W, body, t.acc, t.mem, fuel - 1);
    var k2, c2 := StmtCorrect(W, bytes, body, next, x, s1, fuel - 1);
    EndsAfter(W, bytes, off, s, k, next, s1, t.acc, t.mem, Need(cond), StmtSize(body), x,
              o1, NeedS(body), fuel - 1, k2, c2, StmtSize(st) - JMP_SIZE, x, NeedS(st));
    if o1.Normal? {
      var s2, end := c2.s, off + StmtSize(st) - JMP_SIZE;
      JumpBack(W, bytes, st, end, s2);
      Chain(W, bytes, At(off, s), k + k2, c2, 1, At(off, s2));
      ReadyKeeps(W, s, s2, 0, SlotsS(st), SlotsS(st), 0, NeedS(st));
      var k3, c3 := StmtCorrect(W, bytes, st, off, exit, s2, fuel - 1);
      var o := Exec(W, st, o1.acc, o1.mem, fuel - 1);
      EndsAfter(W, bytes, off, s, k + k2 + 1, off, s2, o1.acc, o1.mem, NeedS(st), StmtSize(st), exit,
                o, NeedS(st), fuel - 1, k3, c3, StmtSize(st), exit, NeedS(st));
      steps, c := k + k2 + 1 + k3, c3;
    } else {
      EndsWiden(W, bytes, off, StmtSize(st) - JMP_SIZE, x, s, o1, NeedS(st), fuel - 1, k + k2, c2, StmtSize(st), exit, NeedS(st));
      steps, c := k + k2, c2;
    }
  }

  lemma WhileShape(st: Stmt, exit: int)
    requires st.While?
    ensures StmtCode(st, Some(exit))
         == CondCode(st.cond) + [Jcc(SkipCC(st.cond), StmtSize(st.body) + JMP_SIZE)]
            + (StmtCode(st.body, Some(exit + JMP_SIZE)) + [Jmp(Back(StmtSize(st)))])
  {
    hide CondCode, Code, Size, SkipCC, StmtSize;
  }

  /** The branch at the end of a loop body goes back to the condition. */
  lemma JumpBack(W: World, bytes: seq<byte>, st: Stmt, end: int, s: State)
    requires Good16(s) && CodeAt(bytes, end, [Jmp(Back(StmtSize(st)))]) && AllWf([Jmp(Back(StmtSize(st)))])
    ensures Steps(W, bytes, At(end, s), 1) == Some(At(end + JMP_SIZE - StmtSize(st), s))
  {
    hide Steps, CodeAt, StmtSize;
    assert Wf([Jmp(Back(StmtSize(st)))][0]);
    JumpAt(W, bytes, end, Back(StmtSize(st)), s);
  }
}
