/** What the end of the enclosing function breaks: a function defined last that
    needs more saved registers returns with some of its caller's registers lost,
    and a `return` of the enclosing function in front of a definition is patched
    into the code that was defined. */
module GenHarm {
  import opened Words
  import opened Isa
  import opened IsaRoundTrip
  import opened Machine
  import opened Source
  import opened Select
  import opened ExprBasics
  import opened ExprProof
  import opened Layout
  import opened Patch
  import opened Returns
  import opened Plain
  import opened Ranges
  import opened StmtProof
  import opened FuncProof
  import opened FuncTheorem
  import opened GenFunc
  import opened GenModule
  import opened GenFinish
  import opened GenSurvive

  // ------------------------------------------------- the function defined last

  lemma FrontWf(f: Func, n: nat)
    requires AllWf(FuncCode(f))
    ensures AllWf(FrontCode(f, n))
  {
    hide AllWf, Prologue, ParamCode, BodyCode, Epilogue;
    var m := NeedS(f.body);
    var rest := ParamCode(f.params, 0) + BodyCode(f.body) + Epilogue(m);
    FrontWhole(f, n);
    AllWfSplit(Prologue(m), rest);
    PrologueWf(MinNat(n, m));
    AllWfSplit(Prologue(MinNat(n, m)), rest);
  }

  /** A call of the function defined last, in the finished buffer: value, memory,
      stack and return address are right, and every callee-saved register that it
      does not use or that the enclosing function picked too. */
  lemma LastFunctionCall(W: World, steps: seq<Item>, s0: State, fuel: nat) returns (n: nat, c: Cfg)
    requires Completes(steps) && ReturnsLast(steps) && Defined(steps) != []
    requires var f := Defined(steps)[|Defined(steps)| - 1];
             && AllWf(FuncCode(f)) && FitsF(f) && !TailIf(f.body) && Entry(W, s0, SlotsS(f.body))
             && ExecFunc(W, f, ArgVals(s0, |f.params|), s0.mem, fuel) != Stuck
    ensures var p, fs := After(Begin(), steps), Defined(steps);
            && |p.starts| == 1 + |fs|
            && Steps(W, Completed(p).value, At(p.starts[|fs|], s0), n) == Some(c)
    ensures var f, used := Defined(steps)[|Defined(steps)| - 1], After(Begin(), steps).used;
            match ExecFunc(W, f, ArgVals(s0, |f.params|), s0.mem, fuel)
            case Finished(v, m) => ReturnsSaving(s0, c, v, m, MinNat(used, NeedS(f.body)), NeedS(f.body))
            case OutOfFuel => n >= fuel && c.At?
            case _ => false
  {
    hide EncodeAll, FuncCode, FuncSaving, Steps, AllWf, ExecFunc, CodeAt, After, Begin, Completed, Init, Texts, StartOf, Recorded,
         Trimmed, Spared, NeedS;
    var p, fs := After(Begin(), steps), Defined(steps);
    var i, f, need := |fs| - 1, fs[|fs| - 1], NeedS(fs[|fs| - 1].body);
    HistoryFacts(steps);
    BeginFacts();
    NoneOnIt(steps, i, EncodeAll(Left(fs, i, p.used)));
    LeftStays(p, fs, Begin().data + Init(steps), i);
    FrontWf(f, p.used);
    n, c := SavingCall(W, Completed(p).value, p.starts[i + 1], f, MinNat(p.used, need), s0, fuel);
  }

  /** With all its own returns behind the definitions, no field of the enclosing
      function lies on one of them. */
  lemma NoneOnIt(steps: seq<Item>, i: nat, text: seq<byte>)
    requires Completes(steps) && ReturnsLast(steps) && i < |Defined(steps)|
    requires text == EncodeAll(Left(Defined(steps), i, After(Begin(), steps).used))
    ensures var p := After(Begin(), steps);
            Spared(text, StartOf(Defined(steps), i), Trimmed(p).1, |Trimmed(p).0|)
  {
    hide EncodeAll, FuncCode, FrontCode, After, Completed, Init, Recorded, Prologue, Trimmed, NeedS, Texts, Imm32, Dropped;
    var p, fs := After(Begin(), steps), Defined(steps);
    HistoryFacts(steps);
    BeginFacts();
    BehindAfter(Begin(), steps);
    TrimmedFacts(p);
    FunctionEnds(fs, i);
    NoppedAt(p, fs, Begin().data + Init(steps), i);
    var rets := Trimmed(p).1;
    forall n | 0 <= n < |rets| ensures rets[n] >= p.starts[0] { assert rets[n] == p.rets[n]; }
  }

  /** When the enclosing function picked some saved registers but fewer, the call
      is right exactly when every register that was not saved happens to lie in
      its slot already. */
  lemma LastCallRightIff(W: World, steps: seq<Item>, s0: State, fuel: nat) returns (n: nat, c: Cfg)
    requires Completes(steps) && ReturnsLast(steps) && Defined(steps) != []
    requires var f := Defined(steps)[|Defined(steps)| - 1];
             && AllWf(FuncCode(f)) && FitsF(f) && !TailIf(f.body) && Entry(W, s0, SlotsS(f.body))
             && ExecFunc(W, f, ArgVals(s0, |f.params|), s0.mem, fuel).Finished?
             && 0 < After(Begin(), steps).used < NeedS(f.body)
    ensures var p, fs := After(Begin(), steps), Defined(steps);
            var f := fs[|fs| - 1];
            var o := ExecFunc(W, f, ArgVals(s0, |f.params|), s0.mem, fuel);
            && |p.starts| == 1 + |fs|
            && Steps(W, Completed(p).value, At(p.starts[|fs|], s0), n) == Some(c)
            && (ReturnsWith(s0, c, o.v, o.mem) <==> InSlots(s0, p.used, NeedS(f.body)))
  {
    hide FuncCode, Steps, AllWf, ExecFunc, After, Begin, Completed, ReturnsLast, Completes, SlotUsed;
    n, c := LastFunctionCall(W, steps, s0, fuel);
    SaveRegFacts();
    var used, need := After(Begin(), steps).used, NeedS(Defined(steps)[|Defined(steps)| - 1].body);
    if InSlots(s0, used, need) {
      forall q: Reg | CalleeSaved(q) && q != RSP ensures c.s.regs[q] == s0.regs[q] {
        if Lost(used, need, q) {
          var i :| 0 <= i < 5 && SlotUsed(need, i) && !SlotUsed(used, i) && q == SaveReg(i);
        }
      }
    }
  }

  ghost predicate InSlots(s0: State, n: nat, need: nat)
    requires Good16(s0)
  {
    forall i :: 0 <= i < 5 && SlotUsed(need, i) && !SlotUsed(n, i) ==>
      Slot(s0.stk, SlotAddr(s0.regs[RSP] as int - 8, i)) == s0.regs[SaveReg(i)]
  }

  // ------------------------------------------- an enclosing function without needs

  /** The function `return 1 + (2 + 3)`: its left operand waits in R12. */
  function Sum(): Expr { Bin(Add, Num(1), Bin(Add, Num(2), Num(3))) }

  function SumFunc(): Func { Func([], Return(Sum())) }

  function SumCode(): seq<Instr> {
    [MovImm32(RAX, 1), MovRR(R12, RAX), MovImm32(RAX, 2), AluImm(AddOp, RAX, 3), AluRR(AddOp, R12, RAX), MovRR(RAX, R12)]
  }

  lemma SumShape()
    ensures Code(Sum(), RAX, false, 0, 0, 0) == SumCode()
    ensures NeedS(SumFunc().body) == 1 && SlotsS(SumFunc().body) == 0 && FitsF(SumFunc()) && !TailIf(SumFunc().body)
  {
    var inner := Bin(Add, Num(2), Num(3));
    assert Code(inner, RAX, false, 1, 0, 0) == [MovImm32(RAX, 2)] + [AluImm(AddOp, RAX, 3)];
    assert Code(Num(1), RAX, false, 0, 0, 0) == [MovImm32(RAX, 1)];
  }

  lemma SumBody()
    ensures BodyCode(SumFunc().body) == SumCode() && AllWf(FuncCode(SumFunc()))
  {
    hide AllWf, Code, SumCode, Prologue, Epilogue;
    SumShape();
    var c := StmtCode(SumFunc().body, Some(-JMP_SIZE));
    assert c == SumCode() + [Jmp(-JMP_SIZE)];
    assert c[..|c| - 1] == SumCode();
    hide BodyCode;
    SumParts();
    assert ParamCode([], 0) == [];
    assert FuncCode(SumFunc()) == Prologue(1) + SumCode() + Epilogue(1);
    AllWfSplit(Prologue(1) + SumCode(), Epilogue(1));
    AllWfSplit(Prologue(1), SumCode());
  }

  lemma SumParts()
    ensures AllWf(Prologue(1)) && AllWf(SumCode()) && AllWf(Epilogue(1))
  {
    PrologueWf(1);
    assert Epilogue(1) == [Load(R12, RBP, -16), Leave, Ret];
    hide Prologue, Epilogue;
  }

  lemma SumMeans(W: World, m: Mem, fuel: nat)
    ensures Eval(W, Sum(), false, m) == Some(Val(6, m))
    ensures ExecFunc(W, SumFunc(), [], m, fuel) == Finished(6, m)
  {
    assert Eval(W, Num(1), false, m) == Some(Val(1, m));
    assert Eval(W, Bin(Add, Num(2), Num(3)), false, m) == Some(Val(5, m));
  }

  predicate RegistersOnly(i: Instr) { i.MovRR? || i.MovImm32? || i.AluImm? || i.AluRR? }

  lemma {:induction false} StackKept(W: World, code: seq<Instr>, s: State)
    requires Good16(s) && forall n :: 0 <= n < |code| ==> RegistersOnly(code[n])
    ensures var r := Run(W, code, s); r.Some? ==> r.value.stk == s.stk
    decreases |code|
  {
    if code != [] {
      OneKept(W, code[0], s);
      hide Step;
      var r := Step(W, code[0], s);
      if r.Some? { StackKept(W, code[1..], r.value); }
    }
  }

  lemma OneKept(W: World, i: Instr, s: State)
    requires Good16(s) && RegistersOnly(i)
    ensures var r := Step(W, i, s); r.Some? ==> r.value.stk == s.stk
  {}

  /** A history of one definition, in an enclosing function with no code of its
      own. */
  lemma OneDefinition(f: Func)
    ensures Completes([Define(f)]) && ReturnsLast([Define(f)]) && Defined([Define(f)]) == [f]
    ensures After(Begin(), [Define(f)]).used == 0 && |After(Begin(), [Define(f)]).starts| == 2
  {
    hide EncodeAll, FuncCode, Prologue, PatchAll, Dropped;
    var steps: seq<Item> := [Define(f)];
    assert steps[1..] == [];
    BeginFacts();
    NextRecorded(Begin(), Define(f));
    assert After(Begin(), steps) == After(Next(Begin(), steps[0]), []);
  }

  /** The sum, defined in such a function: a call of it returns six, and R12 is
      what lay 24 bytes below the caller's stack pointer. */
  lemma CallerCorrupted(W: World, s0: State) returns (n: nat, c: Cfg)
    requires Entry(W, s0, 0)
    ensures Completes([Define(SumFunc())]) && |After(Begin(), [Define(SumFunc())]).starts| == 2
    ensures var p := After(Begin(), [Define(SumFunc())]);
            Good16(s0) && Steps(W, Completed(p).value, At(p.starts[1], s0), n) == Some(c)
    ensures c.Returned? && Good16(c.s) && c.s.regs[RAX] == 6 && c.s.mem == s0.mem
    ensures c.s.regs[R12] == Slot(s0.stk, s0.regs[RSP] - 24)
    ensures Slot(s0.stk, s0.regs[RSP] - 24) != s0.regs[R12] ==> !ReturnsWith(s0, c, 6, s0.mem)
  {
    hide EncodeAll, FuncCode, Steps, AllWf, CodeAt, After, Begin, Completed, Init, Texts, StartOf, Recorded, Trimmed, Spared,
         Code, Run, Prologue, FuncSaving, Framed, SumFunc, SumCode, Restores, BodyCode;
    var f := SumFunc();
    var steps: seq<Item> := [Define(f)];
    OneDefinition(f);
    SumShape();
    SumBody();
    HistoryFacts(steps);
    BeginFacts();
    var p := After(Begin(), steps);
    NoneOnIt(steps, 0, EncodeAll(Left([f], 0, 0)));
    LeftStays(p, [f], Begin().data + Init(steps), 0);
    FrontWf(f, 0);
    assert Left([f], 0, 0) == FuncSaving(f, 0);
    n, c := SumRun(W, Completed(p).value, p.starts[1], s0);
  }

  lemma SumRun(W: World, bytes: seq<byte>, start: int, s0: State) returns (n: nat, c: Cfg)
    requires Entry(W, s0, 0) && CodeAt(bytes, start, FuncSaving(SumFunc(), 0)) && AllWf(FuncSaving(SumFunc(), 0))
    ensures Good16(s0) && Steps(W, bytes, At(start, s0), n) == Some(c)
    ensures c.Returned? && Good16(c.s) && c.s.regs[RAX] == 6 && c.s.mem == s0.mem
    ensures c.s.regs[R12] == Slot(s0.stk, s0.regs[RSP] - 24)
  {
    hide Steps, CodeAt, AllWf, Run, Prologue, FuncSaving, Restores, BodyCode, Code, ParamCode, Size, Framed, Eval;
    var f, code := SumFunc(), SumCode();
    SumShape();
    SumBody();
    SumMeans(W, s0.mem, 0);
    var head := Prologue(0) + ParamCode(f.params, 0);
    var o1, o2, o3 := FuncParts(bytes, start, f, 0);
    assert StoreParams(W, f.params, ArgVals(s0, 0), s0.mem) == Some(s0.mem);
    var s2 := HeadRun(W, f, 0, s0);
    Straight(W, bytes, start, head, s0);
    CodeCorrect(W, Sum(), RAX, false, 0, 0, 0, s2);
    StackKept(W, code, s2);
    Straight(W, bytes, o1, code, s2);
    var s3 := Run(W, code, s2).value;
    Chain(W, bytes, At(start, s0), |head|, At(o1, s2), |code|, At(o2, s3));
    var s1 := s2.(regs := s2.regs[RAX := 0], mem := s0.mem);
    assert Keeps(s1, s3, 0, 1);
    var k;
    k, c := TailRun(W, bytes, 0, 1, o2, o3, s0, s1, s3, 0);
    n := |head| + |code| + k;
    Chain(W, bytes, At(start, s0), |head| + |code|, At(o2, s3), k, c);
    LeftoverSlot(s0, s1, c.s);
  }

  lemma LeftoverSlot(s0: State, s1: State, s: State)
    requires Framed(s0, s1, 0) && Good16(s) && FromSlots(s0, s1, s, 1)
    ensures s.regs[R12] == Slot(s0.stk, s0.regs[RSP] as int - 24)
  {
    SaveRegFacts();
    assert SlotUsed(1, 1) && !SlotUsed(0, 1) && SaveReg(1) == R12;
    assert SlotAddr(s0.regs[RSP] as int - 8, 1) == s0.regs[RSP] as int - 24;
  }

  // ---------------------------------------------- a return before a definition

  /** The function `return 0`. */
  function ZeroFunc(): Func { Func([], Return(Num(0))) }

  /** An enclosing function that returns before it defines it. */
  function EarlyReturn(): seq<Item> { [Own(Return(Num(0))), Define(ZeroFunc())] }

  lemma ZeroBytes()
    ensures var text := EncodeAll(FuncCode(ZeroFunc()));
            |text| == PROLOGUE_SIZE + 7 && text[PROLOGUE_SIZE + 6] == 0xC3
    ensures StmtSize(Return(Num(0))) == 10 && NeedS(Return(Num(0))) == 0
    ensures RetOffs(Return(Num(0)), PROLOGUE_SIZE) == [PROLOGUE_SIZE + 6]
  {
    hide EncodeAll, Encode, Prologue;
    var mov := MovImm32(RAX, 0);
    var st := Stmt.Return(Num(0));
    assert Code(Num(0), RAX, false, 0, 0, 0) == [mov];
    assert |Encode(mov)| == 5 by { MovBytes(); }
    SizeOne(mov);
    assert StmtCode(st, Some(-JMP_SIZE)) == [mov] + [Jmp(-JMP_SIZE)];
    assert BodyCode(st) == [mov];
    assert Epilogue(0) == [Leave, Ret];
    assert FuncCode(ZeroFunc()) == Prologue(0) + [mov] + [Leave] + [Ret] + [];
    TwoAfter(Prologue(0) + [mov], Leave, Ret);
    EncodeAllConcat(Prologue(0), [mov]);
    EncodeAllOne(mov);
    PrologueBytes(0);
    OneByteEach();
  }

  lemma MovBytes()
    ensures |Encode(MovImm32(RAX, 0))| == 5
  {}

  lemma OneByteEach()
    ensures Encode(Leave) == [0xC9] && Encode(Ret) == [0xC3]
  {}

  lemma TwoAfter(pre: seq<Instr>, a: Instr, b: Instr)
    ensures EncodeAll(pre + [a] + [b] + []) == EncodeAll(pre) + Encode(a) + Encode(b)
  {
    hide Encode, EncodeAll;
    assert pre + [a] + [b] + [] == pre + [a] + [b];
    EncodeAllConcat(pre + [a], [b]);
    EncodeAllConcat(pre, [a]);
    EncodeAllOne(a);
    EncodeAllOne(b);
  }

  /** The branch is patched where it was before the definition moved it: into the
      `ret` of the function that was defined. */
  lemma EarlyReturnHarms()
    ensures var p := After(Begin(), EarlyReturn());
            && Completes(EarlyReturn()) && Defined(EarlyReturn()) == [ZeroFunc()] && |p.starts| == 2
            && !CodeAt(Completed(p).value, p.starts[1], FuncCode(ZeroFunc()))
  {
    hide EncodeAll, FuncCode, StmtCode, StmtSize, RetOffs, Prologue, NeedS, PatchAll, Dropped, CodeAt, Imm32, Epilogue;
    var st, f := Stmt.Return(Num(0)), ZeroFunc();
    var steps := EarlyReturn();
    var first: Item, second: Item := Own(st), Define(f);
    assert steps[1..] == [second] && steps[1..][1..] == [];
    BeginFacts();
    ZeroBytes();
    EncodedSize(st, None);
    var p1 := Next(Begin(), first);
    assert p1.rets == [PROLOGUE_SIZE + 6];
    var p := Next(p1, second);
    assert After(Begin(), steps) == p;
    HistoryFacts(steps);
    assert Defined(steps) == [f];
    assert |p.data| == 2 * PROLOGUE_SIZE + 17 && p.rets == [PROLOGUE_SIZE + 6];
    assert Trimmed(p).1 == p.rets && |Trimmed(p).0| == |p.data|;
    FieldByte();
    var text := EncodeAll(FuncCode(f));
    assert StartOf([f], 0) == 0 by { LastStart([f], 0); }
    assert !Spared(text, 0, p.rets, |p.data|) by {
      assert Holds(p.rets[0], PROLOGUE_SIZE + 6);
      assert text[PROLOGUE_SIZE + 6] != Imm32(37)[0];
    }
    SurvivesIff(p, [f], Begin().data + Init(steps), 0);
  }

  lemma FieldByte()
    ensures Imm32(37)[0] == 37
  {}
}
