/** The pieces of a whole function: the body without its deleted branch, the
    frame, the parameters and the epilogue. FuncTheorem puts them together. */
module FuncProof {
  import opened Words
  import opened Isa
  import opened IsaRoundTrip
  import opened Machine
  import opened Source
  import opened Select
  import opened ExprBasics
  import opened ExprCases
  import opened ExprMemory
  import opened ExprProof
  import opened Layout
  import opened StmtProof

  // ------------------------------------------------- deleted trailing return

  lemma {:induction false} NoCodeFacts(W: World, st: Stmt, acc: u64, m: Mem, fuel: nat, exit: Option<int>)
    requires NoCode(st)
    ensures StmtSize(st) == 0 && StmtCode(st, exit) == [] && Exec(W, st, acc, m, fuel) == Normal(acc, m)
    ensures !TailReturn(st)
  {
    match st
    case Skip =>
    case Seq(a, b) =>
      NoCodeFacts(W, a, acc, m, fuel, Farther(exit, StmtSize(b)));
      NoCodeFacts(W, b, acc, m, fuel, exit);
  }

  /** A body that ends with a `return` outside every `if` never falls off its
      end. */
  lemma {:induction false} TailFinishes(W: World, st: Stmt, acc: u64, m: Mem, fuel: nat)
    requires TailReturn(st) && !TailIf(st)
    ensures !Exec(W, st, acc, m, fuel).Normal?
  {
    match st
    case Return(_) =>
    case If(_, _) =>
    case Seq(a, b) =>
      if NoCode(b) {
        TailFinishes(W, a, acc, m, fuel);
      } else {
        var o := Exec(W, a, acc, m, fuel);
        if o.Normal? {
          TailFinishes(W, b, o.acc, o.mem, fuel);
        }
      }
  }

  /** The code of such a body ends with the branch of its return. */
  lemma {:induction false} TailShape(st: Stmt, exit: int)
    requires TailReturn(st)
    ensures var c := StmtCode(st, Some(exit));
            |c| > 0 && c == c[..|c| - 1] + [Jmp(exit)] && StmtSize(st) >= JMP_SIZE
    ensures var c := StmtCode(st, Some(exit)); Size(c[..|c| - 1]) == StmtSize(st) - JMP_SIZE
  {
    hide StmtCode, Size, Code, CondCode, TailReturn;
    TailEnds(st, exit);
    var c := StmtCode(st, Some(exit));
    assert c == c[..|c| - 1] + [Jmp(exit)];
    SizeConcat(c[..|c| - 1], [Jmp(exit)]);
    JumpSizes(0, exit);
    StmtSizeOk(st, Some(exit));
  }

  lemma {:induction false} TailEnds(st: Stmt, exit: int)
    requires TailReturn(st)
    ensures var c := StmtCode(st, Some(exit)); |c| > 0 && c[|c| - 1] == Jmp(exit)
  {
    hide Code, CondCode, StmtSize;
    match st
    case Return(_) =>
    case If(c, b) =>
      TailEnds(b, exit);
      LastKept(CondCode(c) + [Jcc(SkipCC(c), StmtSize(b))], StmtCode(b, Some(exit)));
    case Seq(a, b) =>
      if NoCode(b) {
        EmptyCode(b, Some(exit));
        TailEnds(a, exit);
        assert StmtCode(st, Some(exit)) == StmtCode(a, Some(exit));
      } else {
        TailEnds(b, exit);
        LastKept(StmtCode(a, Some(exit + StmtSize(b))), StmtCode(b, Some(exit)));
      }
  }

  lemma LastKept(a: seq<Instr>, b: seq<Instr>)
    requires |b| > 0
    ensures |a + b| > 0 && (a + b)[|a + b| - 1] == b[|b| - 1]
  {}

  lemma {:induction false} EmptyCode(st: Stmt, exit: Option<int>)
    requires NoCode(st)
    ensures StmtSize(st) == 0 && StmtCode(st, exit) == []
  {
    match st
    case Skip =>
    case Seq(a, b) =>
      EmptyCode(a, Farther(exit, StmtSize(b)));
      EmptyCode(b, exit);
  }

  /** Without its last branch the body still gets to the epilogue by `return`; the
      epilogue now starts where that branch was. By falling off its end, which is
      possible when that `return` is inside an `if`, it gets to where the branch
      ended. */
  lemma TailCorrect(W: World, bytes: seq<byte>, st: Stmt, off: int, s: State, fuel: nat)
    returns (steps: nat, c: Cfg)
    requires TailReturn(st)
    requires var code := StmtCode(st, Some(-JMP_SIZE));
             |code| > 0 && CodeAt(bytes, off, code[..|code| - 1]) && AllWf(code)
    requires Ready(W, s, 0, SlotsS(st)) && FitsS(st)
    requires Exec(W, st, s.regs[RAX], s.mem, fuel) != Stuck
    ensures Ends(W, bytes, off, StmtSize(st), -JMP_SIZE, s, Exec(W, st, s.regs[RAX], s.mem, fuel),
                 NeedS(st), fuel, steps, c)
    decreases st, 1
  {
    hide Steps, CodeAt, AllWf, Run, Code, Size, Eval;
    var code := StmtCode(st, Some(-JMP_SIZE));
    match st
    case If(_, _) =>
      steps, c := TailUnder(W, bytes, st, off, s, fuel);
    case Return(e) =>
      var ce := Code(e, RAX, false, 0, 0, 0);
      assert code[..|code| - 1] == ce;
      AllWfSplit(ce, [Jmp(-JMP_SIZE)]);
      CodeCorrect(W, e, RAX, false, 0, 0, 0, s);
      Straight(W, bytes, off, ce, s);
      steps, c := |ce|, At(off + Size(ce), Run(W, ce, s).value);
    case Seq(a, b) =>
      if NoCode(b) {
        steps, c := TailLeft(W, bytes, st, off, s, fuel);
      } else {
        steps, c := TailRight(W, bytes, st, off, s, fuel);
      }
  }

  lemma TailOf(st: Stmt)
    requires st.Seq? && NoCode(st.rest) && TailReturn(st)
    ensures TailReturn(st.first)
  {}

  lemma TailLeft(W: World, bytes: seq<byte>, st: Stmt, off: int, s: State, fuel: nat)
    returns (steps: nat, c: Cfg)
    requires st.Seq? && NoCode(st.rest) && TailReturn(st)
    requires var code := StmtCode(st, Some(-JMP_SIZE));
             |code| > 0 && CodeAt(bytes, off, code[..|code| - 1]) && AllWf(code)
    requires Ready(W, s, 0, SlotsS(st)) && FitsS(st)
    requires Exec(W, st, s.regs[RAX], s.mem, fuel) != Stuck
    ensures Ends(W, bytes, off, StmtSize(st), -JMP_SIZE, s, Exec(W, st, s.regs[RAX], s.mem, fuel),
                 NeedS(st), fuel, steps, c)
    decreases st, 0
  {
    hide Steps, CodeAt, AllWf, Size, Exec, TailReturn;
    var Seq(a, b) := st;
    TailOf(st);
    EmptyCode(b, Some(-JMP_SIZE));
    assert StmtCode(st, Some(-JMP_SIZE)) == StmtCode(a, Some(-JMP_SIZE));
    hide StmtCode;
    var o := Exec(W, a, s.regs[RAX], s.mem, fuel);
    SeqExec(W, st, s.regs[RAX], s.mem, fuel);
    if o.Normal? { NoCodeFacts(W, b, o.acc, o.mem, fuel, None); }
    ReadyLess(W, s, 0, SlotsS(st), SlotsS(a));
    steps, c := TailCorrect(W, bytes, a, off, s, fuel);
  }

  /** An `if` around the deleted branch. */
  lemma TailUnder(W: World, bytes: seq<byte>, st: Stmt, off: int, s: State, fuel: nat)
    returns (steps: nat, c: Cfg)
    requires st.If? && TailReturn(st)
    requires var code := StmtCode(st, Some(-JMP_SIZE));
             |code| > 0 && CodeAt(bytes, off, code[..|code| - 1]) && AllWf(code)
    requires Ready(W, s, 0, SlotsS(st)) && FitsS(st)
    requires Exec(W, st, s.regs[RAX], s.mem, fuel) != Stuck
    ensures Ends(W, bytes, off, StmtSize(st), -JMP_SIZE, s, Exec(W, st, s.regs[RAX], s.mem, fuel),
                 NeedS(st), fuel, steps, c)
    decreases st, 0
  {
    hide Steps, CodeAt, AllWf, Run, CondCode, Size, EvalCond;
    var If(cond, body) := st;
    var head, cb := CondCode(cond) + [Jcc(SkipCC(cond), StmtSize(body))], StmtCode(body, Some(-JMP_SIZE));
    assert StmtCode(st, Some(-JMP_SIZE)) == head + cb;
    hide StmtCode;
    TailShape(body, -JMP_SIZE);
    DropLastConcat(head, cb);
    AllWfSplit(head, cb);
    AllWfSplit(cb[..|cb| - 1], [Jmp(-JMP_SIZE)]);
    AllWfSplit(head, cb[..|cb| - 1]);
    var t := EvalCond(W, cond, s.mem).value;
    var o := Exec(W, st, s.regs[RAX], s.mem, fuel);
    ReadyLess(W, s, 0, SlotsS(st), Slots(cond));
    var k, s1 := TestAndBranch(W, bytes, cond, StmtSize(body), cb[..|cb| - 1], off, s);
    var next := off + Size(CondCode(cond)) + JCC_SIZE;
    if t.holds {
      ReadyKeeps(W, s, s1, 0, SlotsS(st), SlotsS(body), 0, Need(cond));
      var k2, c2 := TailCorrect(W, bytes, body, next, s1, fuel);
      EndsAfter(W, bytes, off, s, k, next, s1, t.acc, t.mem, Need(cond), StmtSize(body), -JMP_SIZE,
                o, NeedS(body), fuel, k2, c2, StmtSize(st), -JMP_SIZE, NeedS(st));
      steps, c := k + k2, c2;
    } else {
      steps, c := k, At(next + StmtSize(body), s1);
    }
  }

  lemma TailSeqShape(st: Stmt)
    requires st.Seq? && !NoCode(st.rest) && TailReturn(st)
    ensures var code := StmtCode(st, Some(-JMP_SIZE));
            var ca := StmtCode(st.first, Some(StmtSize(st.rest) - JMP_SIZE));
            var cb := StmtCode(st.rest, Some(-JMP_SIZE));
            |cb| > 0 && code == ca + cb && code[..|code| - 1] == ca + cb[..|cb| - 1]
  {
    hide Size;
    TailShape(st.rest, -JMP_SIZE);
    var code := StmtCode(st, Some(-JMP_SIZE));
    var ca := StmtCode(st.first, Some(StmtSize(st.rest) - JMP_SIZE));
    var cb := StmtCode(st.rest, Some(-JMP_SIZE));
    assert code == ca + cb;
    DropLastConcat(ca, cb);
  }

  lemma DropLastConcat(a: seq<Instr>, b: seq<Instr>)
    requires |b| > 0
    ensures (a + b)[..|a + b| - 1] == a + b[..|b| - 1]
  {}

  lemma TailPieces(bytes: seq<byte>, st: Stmt, off: int)
    requires st.Seq? && !NoCode(st.rest) && TailReturn(st)
    requires var code := StmtCode(st, Some(-JMP_SIZE));
             |code| > 0 && CodeAt(bytes, off, code[..|code| - 1]) && AllWf(code)
    ensures var ca := StmtCode(st.first, Some(StmtSize(st.rest) - JMP_SIZE));
            var cb := StmtCode(st.rest, Some(-JMP_SIZE));
            && |cb| > 0 && CodeAt(bytes, off, ca) && CodeAt(bytes, off + StmtSize(st.first), cb[..|cb| - 1])
            && AllWf(ca) && AllWf(cb)
  {
    hide CodeAt, AllWf, Size, StmtCode, StmtSize;
    var x := StmtSize(st.rest) - JMP_SIZE;
    var ca, cb := StmtCode(st.first, Some(x)), StmtCode(st.rest, Some(-JMP_SIZE));
    TailSeqShape(st);
    CodeAtSplit(bytes, off, ca, cb[..|cb| - 1]);
    AllWfSplit(ca, cb);
    StmtSizeOk(st.first, Some(x));
  }

  lemma TailRight(W: World, bytes: seq<byte>, st: Stmt, off: int, s: State, fuel: nat)
    returns (steps: nat, c: Cfg)
    requires st.Seq? && !NoCode(st.rest) && TailReturn(st)
    requires var code := StmtCode(st, Some(-JMP_SIZE));
             |code| > 0 && CodeAt(bytes, off, code[..|code| - 1]) && AllWf(code)
    requires Ready(W, s, 0, SlotsS(st)) && FitsS(st)
    requires Exec(W, st, s.regs[RAX], s.mem, fuel) != Stuck
    ensures Ends(W, bytes, off, StmtSize(st), -JMP_SIZE, s, Exec(W, st, s.regs[RAX], s.mem, fuel),
                 NeedS(st), fuel, steps, c)
    decreases st, 0
  {
    hide Steps, CodeAt, AllWf, Size, StmtCode, Exec, StmtSize, SlotsS, NeedS, NoCode, CallsFitS, ArraysFitS, TailReturn, Ends;
    var Seq(a, b) := st;
    SeqParts(st);
    SeqExec(W, st, s.regs[RAX], s.mem, fuel);
    TailPieces(bytes, st, off);
    var x := StmtSize(b) - JMP_SIZE;
    var o := Exec(W, a, s.regs[RAX], s.mem, fuel);
    steps, c := StmtCorrect(W, bytes, a, off, x, s, fuel);
    if o.Normal? {
      EndsLanded(W, bytes, off, StmtSize(a), x, s, o, NeedS(a), fuel, steps, c);
      ReadyKeeps(W, s, c.s, 0, SlotsS(st), SlotsS(b), 0, NeedS(a));
      var off1 := off + StmtSize(a);
      var n2, c2 := TailCorrect(W, bytes, b, off1, c.s, fuel);
      EndsAfter(W, bytes, off, s, steps, off1, c.s, o.acc, o.mem, NeedS(a), StmtSize(b), -JMP_SIZE,
                Exec(W, b, o.acc, o.mem, fuel), NeedS(b), fuel, n2, c2, StmtSize(st), -JMP_SIZE, NeedS(st));
      steps, c := steps + n2, c2;
    } else {
      EndsWiden(W, bytes, off, StmtSize(a), x, s, o, NeedS(a), fuel, steps, c, StmtSize(st), -JMP_SIZE, NeedS(st));
    }
  }

  lemma EndsLanded(W: World, bytes: seq<byte>, off: int, size: nat, exit: int, s: State, o: Outcome, n: nat, fuel: nat,
                   steps: nat, c: Cfg)
    requires o.Normal? && Ends(W, bytes, off, size, exit, s, o, n, fuel, steps, c)
    ensures Good16(s) && Steps(W, bytes, At(off, s), steps) == Some(c) && c == At(off + size, c.s)
    ensures Lands(s, c.s, o.acc, o.mem, n)
  {
    hide Steps, Lands;
  }

  lemma {:induction false} TailIfReturns(st: Stmt)
    ensures TailIf(st) ==> TailReturn(st)
  {
    match st
    case Seq(a, b) => TailIfReturns(a); TailIfReturns(b);
    case _ =>
  }

  /** The body as finally emitted reaches the epilogue with the value and memory
      the source body ends with; only when the deleted `return` is inside an `if`
      and the body falls off its end does it go past where that branch was. */
  lemma BodyCorrect(W: World, bytes: seq<byte>, body: Stmt, off: int, s: State, fuel: nat)
    returns (steps: nat, c: Cfg)
    requires CodeAt(bytes, off, BodyCode(body))
    requires AllWf(StmtCode(body, Some(if TailReturn(body) then -JMP_SIZE else 0)))
    requires Ready(W, s, 0, SlotsS(body)) && FitsS(body)
    requires Exec(W, body, s.regs[RAX], s.mem, fuel) != Stuck
    ensures Good16(s) && Steps(W, bytes, At(off, s), steps) == Some(c) && c.At?
    ensures match Exec(W, body, s.regs[RAX], s.mem, fuel)
            case Normal(acc, m) =>
              && c.rip == off + Size(BodyCode(body)) + (if TailIf(body) then JMP_SIZE else 0)
              && Lands(s, c.s, acc, m, NeedS(body))
            case Finished(v, m) => c.rip == off + Size(BodyCode(body)) && Lands(s, c.s, v, m, NeedS(body))
            case OutOfFuel => steps >= fuel
            case Stuck => false
  {
    hide Steps, CodeAt, AllWf, Exec;
    if TailReturn(body) {
      TailShape(body, -JMP_SIZE);
      if !TailIf(body) { TailFinishes(W, body, s.regs[RAX], s.mem, fuel); }
      steps, c := TailCorrect(W, bytes, body, off, s, fuel);
    } else {
      TailIfReturns(body);
      StmtSizeOk(body, Some(0));
      steps, c := StmtCorrect(W, bytes, body, off, 0, s, fuel);
    }
  }

  // ------------------------------------------------------- frame and epilogue

  /** The state a SysV caller leaves at the entry of a function that needs
      `slots` words besides its frame: the return address is at [RSP]. */
  ghost predicate Entry(W: World, s: State, slots: nat) {
    && Good16(s) && GoodWorld(W)
    && s.regs[RSP] % 16 == 8
    && W.lo + 56 + 8 * slots <= s.regs[RSP] && s.regs[RSP] + 8 <= W.hi
  }

  /** The slot of the k-th saved register. */
  function SlotAddr(rbp: int, k: nat): int { rbp - 8 * (k + 1) }

  /** Every restored register holds what its slot held. */
  ghost predicate FromSlots(s0: State, s: State, s': State, need: nat)
    requires Good16(s0) && Good16(s')
  {
    forall i :: 0 <= i < 5 && SlotUsed(need, i) ==>
      s'.regs[SaveReg(i)] == Slot(s.stk, SlotAddr(s0.regs[RSP] as int - 8, i))
  }

  lemma SaveStep(W: World, n: nat, k: nat, s: State)
    requires Good16(s) && k < 5 && n <= 5 && SlotUsed(n, k)
    requires InStack(W, SlotAddr(s.regs[RBP], k)) && 0 <= SlotAddr(s.regs[RBP], k)
    ensures Step(W, SaveSlot(n, k), s)
         == Some(s.(stk := s.stk[SlotAddr(s.regs[RBP], k) := s.regs[SaveReg(k)]]))
  {}

  /** The saves that are kept store their registers; the others do nothing. */
  lemma {:induction false} SavesRun(W: World, n: nat, k: nat, s: State)
    requires Good16(s) && n <= 5 && k <= 5
    requires forall i :: k <= i < 5 && SlotUsed(n, i) ==>
               InStack(W, SlotAddr(s.regs[RBP], i)) && 0 <= SlotAddr(s.regs[RBP], i)
    ensures var r := Run(W, SaveSlots(n, k), s);
            r.Some? && r.value.regs == s.regs && r.value.mem == s.mem
            && (forall i :: k <= i < 5 && SlotUsed(n, i) ==>
                  Slot(r.value.stk, SlotAddr(s.regs[RBP], i)) == s.regs[SaveReg(i)])
            && (forall i :: k <= i < 5 && !SlotUsed(n, i) ==>
                  Slot(r.value.stk, SlotAddr(s.regs[RBP], i)) == Slot(s.stk, SlotAddr(s.regs[RBP], i)))
            && (forall a :: a > SlotAddr(s.regs[RBP], k) ==> Slot(r.value.stk, a) == Slot(s.stk, a))
    decreases 5 - k
  {
    hide Step, Run, InStack;
    if k == 5 {
      EmptyRun(W, s);
    } else {
      var i := SaveSlot(n, k);
      var s1 := if SlotUsed(n, k) then s.(stk := s.stk[SlotAddr(s.regs[RBP], k) := s.regs[SaveReg(k)]]) else s;
      if SlotUsed(n, k) {
        SaveStep(W, n, k, s);
      } else {
        NopStep(W, s);
      }
      RunOne(W, i, s);
      SavesRun(W, n, k + 1, s1);
      Then(W, [i], SaveSlots(n, k + 1), s);
    }
  }

  lemma NopStep(W: World, s: State)
    requires Good16(s)
    ensures Step(W, Nop4, s) == Some(s)
  {}

  lemma EmptyRun(W: World, s: State)
    requires Good16(s)
    ensures Run(W, [], s) == Some(s)
  {}

  lemma RestoreStep(W: World, k: nat, s: State)
    requires Good16(s) && k < 5
    requires InStack(W, SlotAddr(s.regs[RBP], k)) && 0 <= SlotAddr(s.regs[RBP], k)
    ensures Step(W, Load(SaveReg(k), RBP, -8 * (k + 1)), s)
         == Some(SetReg(s, SaveReg(k), Slot(s.stk, SlotAddr(s.regs[RBP], k))))
  {}

  /** The restores load every used register from its slot. */
  lemma {:induction false} RestoresRun(W: World, n: nat, k: nat, s: State)
    requires Good16(s) && n <= 5 && k <= 5
    requires forall i :: k <= i < 5 && SlotUsed(n, i) ==>
               InStack(W, SlotAddr(s.regs[RBP], i)) && 0 <= SlotAddr(s.regs[RBP], i)
    ensures var r := Run(W, Restores(n, k), s);
            r.Some? && r.value.mem == s.mem && r.value.stk == s.stk
            && (forall i :: k <= i < 5 && SlotUsed(n, i) ==>
                  r.value.regs[SaveReg(i)] == Slot(s.stk, SlotAddr(s.regs[RBP], i)))
            && (forall q: Reg :: (forall i :: k <= i < 5 && SlotUsed(n, i) ==> q != SaveReg(i))
                  ==> r.value.regs[q] == s.regs[q])
    decreases 5 - k
  {
    hide Step, Run;
    SaveRegFacts();
    if k == 5 {
      EmptyRun(W, s);
    } else {
      var code := Restore(n, k);
      var s1 := if SlotUsed(n, k) then SetReg(s, SaveReg(k), Slot(s.stk, SlotAddr(s.regs[RBP], k))) else s;
      if SlotUsed(n, k) {
        RestoreStep(W, k, s);
        RunOne(W, code[0], s);
      } else {
        EmptyRun(W, s);
      }
      assert s1.regs[RBP] == s.regs[RBP];
      RestoresRun(W, n, k + 1, s1);
      Then(W, code, Restores(n, k + 1), s);
      var r := Run(W, Restores(n, k + 1), s1).value;
      assert SlotUsed(n, k) ==> r.regs[SaveReg(k)] == s1.regs[SaveReg(k)];
    }
  }

  lemma SaveRegFacts()
    ensures forall i, i' :: 0 <= i < i' < 5 ==> SaveReg(i) != SaveReg(i')
    ensures forall i :: 0 <= i < 5 ==> SaveReg(i) in {RBX, R12, R13, R14, R15}
    ensures SaveReg(0) == Saved(4) && forall i :: 1 <= i < 5 ==> SaveReg(i) == Saved(i - 1)
  {}

  /** After the prologue: RBP is the frame, the registers it saves are in their
      slots and the other slots are untouched, RAX is zero, as is the rest. */
  ghost predicate Framed(s0: State, s: State, n: nat) {
    && Good16(s0) && Good16(s)
    && var rsp: int := s0.regs[RSP];
    && s.regs[RBP] == rsp - 8
    && s.regs[RSP] == (if n == 0 then rsp - 8 else rsp - 56)
    && s.regs[RAX] == 0 && s.mem == s0.mem
    && (forall q: Reg :: q != RSP && q != RBP && q != RAX ==> s.regs[q] == s0.regs[q])
    && Slot(s.stk, rsp - 8) == s0.regs[RBP]
    && (forall i :: 0 <= i < 5 && SlotUsed(n, i) ==> Slot(s.stk, SlotAddr(rsp - 8, i)) == s0.regs[SaveReg(i)])
    && (forall i :: 0 <= i < 5 && !SlotUsed(n, i) ==>
          Slot(s.stk, SlotAddr(rsp - 8, i)) == Slot(s0.stk, SlotAddr(rsp - 8, i)))
    && (forall a :: a >= rsp ==> Slot(s.stk, a) == Slot(s0.stk, a))
  }

  /** A register that is restored although it was not saved. */
  predicate Lost(n: nat, need: nat, q: Reg) {
    exists i :: 0 <= i < 5 && SlotUsed(need, i) && !SlotUsed(n, i) && q == SaveReg(i)
  }

  /** What lies in the slot of such a register, when there is a frame around it. */
  ghost predicate Leftover(s0: State, s: State, n: nat, need: nat)
    requires Good16(s0) && Good16(s)
  {
    n > 0 ==> forall i :: 0 <= i < 5 && SlotUsed(need, i) && !SlotUsed(n, i) ==>
      s.regs[SaveReg(i)] == Slot(s0.stk, SlotAddr(s0.regs[RSP] as int - 8, i))
  }

  lemma FrameSteps(W: World, n: nat, s0: State, slots: nat) returns (s3: State)
    requires Entry(W, s0, slots) && n <= 5
    ensures Run(W, [Push(RBP), MovRR(RBP, RSP), FrameSub(n)], s0) == Some(s3)
    ensures var rsp := s0.regs[RSP];
            s3.regs == s0.regs[RSP := if n == 0 then rsp - 8 else rsp - 56][RBP := rsp - 8]
            && s3.mem == s0.mem && s3.stk == s0.stk[rsp - 8 := s0.regs[RBP]]
  {
    var rsp := s0.regs[RSP];
    var s1 := SetReg(s0, RSP, rsp - 8).(stk := s0.stk[rsp - 8 := s0.regs[RBP]]);
    PushRbp(W, s0, slots);
    var s2 := SetReg(s1, RBP, rsp - 8);
    MovStep(W, RBP, RSP, s1);
    s3 := if n == 0 then s2 else SetReg(s2, RSP, rsp - 56).(flags := Undefined);
    SubFrame(W, n, s2);
    hide Run, Step;
    RunOne(W, Push(RBP), s0);
    ThenOne(W, [Push(RBP)], MovRR(RBP, RSP), s0);
    ThenOne(W, [Push(RBP)] + [MovRR(RBP, RSP)], FrameSub(n), s0);
    assert [Push(RBP)] + [MovRR(RBP, RSP)] + [FrameSub(n)] == [Push(RBP), MovRR(RBP, RSP), FrameSub(n)];
  }

  lemma PushRbp(W: World, s: State, slots: nat)
    requires Entry(W, s, slots)
    ensures Step(W, Push(RBP), s)
         == Some(SetReg(s, RSP, s.regs[RSP] - 8).(stk := s.stk[s.regs[RSP] - 8 := s.regs[RBP]]))
  {
    hide Load64, Store64, CmpFlags, Cond, Pow2;
  }

  lemma SubFrame(W: World, n: nat, s: State)
    requires Good16(s) && s.regs[RSP] >= 48
    ensures Step(W, FrameSub(n), s)
         == Some(if n == 0 then s else SetReg(s, RSP, s.regs[RSP] - 48).(flags := Undefined))
  {}

  lemma PrologueRun(W: World, n: nat, s0: State, slots: nat)
    requires Entry(W, s0, slots) && n <= 5
    ensures var r := Run(W, Prologue(n), s0); r.Some? && Framed(s0, r.value, n)
  {
    hide Run, Step, FrameSub, Encode, SaveSlots, Framed;
    var head, saves := [Push(RBP), MovRR(RBP, RSP), FrameSub(n)], SaveSlots(n, 0);
    assert Prologue(n) == head + saves + [Xor32(RAX, RAX)];
    var s3 := FrameSteps(W, n, s0, slots);
    SavesRun(W, n, 0, s3);
    Then(W, head, saves, s0);
    var s4 := Run(W, saves, s3).value;
    XorStep(W, s4);
    ThenOne(W, head + saves, Xor32(RAX, RAX), s0);
    FrameUp(n, s0, s3, s4);
  }

  /** Frame and saves together, seen from the entry. */
  lemma FrameUp(n: nat, s0: State, s3: State, s4: State)
    requires Good16(s0) && Good16(s3) && Good16(s4) && n <= 5 && s0.regs[RSP] >= 56
    requires var rsp := s0.regs[RSP];
             && s3.regs == s0.regs[RSP := if n == 0 then rsp - 8 else rsp - 56][RBP := rsp - 8]
             && s3.mem == s0.mem && s3.stk == s0.stk[rsp - 8 := s0.regs[RBP]]
    requires s4.regs == s3.regs && s4.mem == s3.mem
    requires forall i :: 0 <= i < 5 && SlotUsed(n, i) ==> Slot(s4.stk, SlotAddr(s3.regs[RBP], i)) == s3.regs[SaveReg(i)]
    requires forall i :: 0 <= i < 5 && !SlotUsed(n, i) ==>
               Slot(s4.stk, SlotAddr(s3.regs[RBP], i)) == Slot(s3.stk, SlotAddr(s3.regs[RBP], i))
    requires forall a :: a > SlotAddr(s3.regs[RBP], 0) ==> Slot(s4.stk, a) == Slot(s3.stk, a)
    ensures Framed(s0, SetReg(s4, RAX, 0).(flags := Undefined), n)
  {
    SaveRegFacts();
    var s5 := SetReg(s4, RAX, 0).(flags := Undefined);
    forall a | a >= s0.regs[RSP]
      ensures Slot(s5.stk, a) == Slot(s0.stk, a)
    {
      assert Slot(s4.stk, a) == Slot(s3.stk, a);
    }
    assert Slot(s4.stk, s0.regs[RSP] - 8) == Slot(s3.stk, s0.regs[RSP] - 8);
  }

  lemma XorStep(W: World, s: State)
    requires Good16(s)
    ensures Step(W, Xor32(RAX, RAX), s) == Some(SetReg(s, RAX, 0).(flags := Undefined))
  {}

  // -------------------------------------------------------------- parameters

  /** Arguments are stored to their cells in order, through RAX. */
  lemma {:induction false} ParamsRun(W: World, params: seq<u64>, i: nat, vals: seq<u64>, s: State)
    requires Good16(s) && i + |params| <= 6 && |params| <= |vals|
    requires forall n :: 0 <= n < |params| ==> s.regs[ArgReg(i + n)] == vals[n]
    requires StoreParams(W, params, vals, s.mem).Some?
    ensures var r := Run(W, ParamCode(params, i), s);
            r.Some? && r.value.stk == s.stk
            && r.value.regs == s.regs[RAX := if params == [] then s.regs[RAX] else params[|params| - 1]]
            && r.value.mem == StoreParams(W, params, vals, s.mem).value
    decreases |params|
  {
    hide Run, Step, Store64;
    if params == [] {
      EmptyRun(W, s);
      assert s.regs == s.regs[RAX := s.regs[RAX]];
    } else {
      var a, rest := params[0], params[1..];
      var head := [MovImm64(RAX, a), Store(RAX, 0, ArgReg(i))];
      var s2 := ParamRun(W, a, i, s, vals[0]);
      forall n | 0 <= n < |rest|
        ensures s2.regs[ArgReg(i + 1 + n)] == vals[1..][n]
      {
        assert s.regs[ArgReg(i + (n + 1))] == vals[n + 1];
      }
      ParamsRun(W, rest, i + 1, vals[1..], s2);
      Then(W, head, ParamCode(rest, i + 1), s);
      if rest != [] {
        assert rest[|rest| - 1] == params[|params| - 1];
      }
      assert s2.regs[RAX := s2.regs[RAX]] == s2.regs;
    }
  }

  lemma ParamRun(W: World, a: u64, i: nat, s: State, v: u64) returns (s2: State)
    requires Good16(s) && i < 6 && DataOk(W, a) && s.regs[ArgReg(i)] == v
    ensures Run(W, [MovImm64(RAX, a), Store(RAX, 0, ArgReg(i))], s) == Some(s2)
    ensures s2 == SetReg(s, RAX, a).(mem := Store64(s.mem, a, v))
  {
    hide Store64, Run;
    var i1, i2 := MovImm64(RAX, a), Store(RAX, 0, ArgReg(i));
    var s1 := SetReg(s, RAX, a);
    assert Step(W, i1, s) == Some(s1);
    hide Step;
    RunOne(W, i1, s);
    StoreStep(W, RAX, ArgReg(i), s1);
    ThenOne(W, [i1], i2, s);
    assert [i1] + [i2] == [i1, i2];
    s2 := s1.(mem := Store64(s.mem, a, v));
  }

  // ---------------------------------------------------------------- epilogue

  lemma LeaveStep(W: World, s: State)
    requires Good16(s) && InStack(W, s.regs[RBP]) && s.regs[RBP] + 8 < TWO64
    ensures Step(W, Leave, s) == Some(SetReg(SetReg(s, RSP, s.regs[RBP] + 8), RBP, Slot(s.stk, s.regs[RBP])))
  {}

  /** From a body that kept the frame, restores and leave bring back RBP, RSP to
      the return address, and every callee-saved register but those restored
      without having been saved. */
  lemma EpilogueRun(W: World, n: nat, need: nat, s0: State, s1: State, s2: State, slots: nat)
    requires Entry(W, s0, slots) && n <= need <= 5 && Framed(s0, s1, n)
    requires Keeps(s1, s2, 0, need)
    ensures var r := Run(W, Restores(need, 0) + [Leave], s2);
            r.Some? && r.value.mem == s2.mem && r.value.regs[RAX] == s2.regs[RAX]
            && (forall q: Reg :: CalleeSaved(q) && !Lost(n, need, q) ==> r.value.regs[q] == s0.regs[q])
            && Leftover(s0, r.value, n, need) && FromSlots(s0, s2, r.value, need)
            && (forall a :: a >= s0.regs[RSP] ==> Slot(r.value.stk, a) == Slot(s0.stk, a))
  {
    hide Run, Step, Lost, SlotUsed, Leftover, Framed, Keeps, InStack, Entry;
    SaveRegFacts();
    FrameRoom(W, n, need, s0, s1, s2, slots);
    var rbp := s0.regs[RSP] - 8;
    RestoresRun(W, need, 0, s2);
    var s3 := Run(W, Restores(need, 0), s2).value;
    assert s3.regs[RBP] == rbp && s3.regs[RAX] == s2.regs[RAX];
    LeaveStep(W, s3);
    ThenOne(W, Restores(need, 0), Leave, s2);
    var s4 := SetReg(SetReg(s3, RSP, rbp + 8), RBP, Slot(s3.stk, rbp));
    SavedBack(n, need, s0, s1, s2, s3);
    FrameDown(n, need, s0, s1, s2, s3, s4);
  }

  lemma FrameRoom(W: World, n: nat, need: nat, s0: State, s1: State, s2: State, slots: nat)
    requires Entry(W, s0, slots) && Framed(s0, s1, n) && Keeps(s1, s2, 0, need)
    ensures Good16(s0) && Good16(s2) && s0.regs[RSP] >= 56 && s0.regs[RSP] < TWO64 && s2.regs[RBP] == s0.regs[RSP] - 8
    ensures forall i :: 0 <= i < 5 && SlotUsed(need, i) ==>
              InStack(W, SlotAddr(s0.regs[RSP] - 8, i)) && 0 <= SlotAddr(s0.regs[RSP] - 8, i)
    ensures InStack(W, s0.regs[RSP] - 8)
  {
    hide InStack, SlotUsed, SlotAddr;
    RoomBelow(W, s0.regs[RSP], 0);
    forall i | 0 <= i < 5 && SlotUsed(need, i)
      ensures InStack(W, SlotAddr(s0.regs[RSP] - 8, i)) && 0 <= SlotAddr(s0.regs[RSP] - 8, i)
    {
      RoomBelow(W, s0.regs[RSP], i);
    }
  }

  lemma RoomBelow(W: World, rsp: int, i: nat)
    requires GoodWorld(W) && W.lo + 56 <= rsp && rsp + 8 <= W.hi && rsp % 16 == 8 && i < 5
    ensures InStack(W, SlotAddr(rsp - 8, i)) && 0 <= SlotAddr(rsp - 8, i) && InStack(W, rsp - 8)
  {
    var q := rsp / 16;
    assert rsp == 8 * (2 * q + 1);
    assert SlotAddr(rsp - 8, i) == 8 * (2 * q - i - 1) && rsp - 8 == 8 * (2 * q);
  }

  /** Leaving the frame changes RSP and RBP only. */
  lemma FrameDown(n: nat, need: nat, s0: State, s1: State, s2: State, s3: State, s4: State)
    requires n <= need <= 5 && Framed(s0, s1, n) && Keeps(s1, s2, 0, need) && Good16(s3) && s3.stk == s2.stk
    requires 8 <= s0.regs[RSP]
    requires s4 == SetReg(SetReg(s3, RSP, s0.regs[RSP]), RBP, Slot(s3.stk, s0.regs[RSP] - 8))
    requires forall q: Reg :: q in {RBX, R12, R13, R14, R15} && !Lost(n, need, q) ==> s3.regs[q] == s0.regs[q]
    requires Leftover(s0, s3, n, need) && FromSlots(s0, s2, s3, need)
    ensures forall q: Reg :: CalleeSaved(q) && !Lost(n, need, q) ==> s4.regs[q] == s0.regs[q]
    ensures Leftover(s0, s4, n, need) && FromSlots(s0, s2, s4, need)
    ensures forall a :: a >= s0.regs[RSP] ==> Slot(s4.stk, a) == Slot(s0.stk, a)
  {
    hide Lost, SlotUsed;
    SaveRegFacts();
    forall i | 0 <= i < 5 ensures s4.regs[SaveReg(i)] == s3.regs[SaveReg(i)] {}
    assert Slot(s2.stk, s0.regs[RSP] - 8) == Slot(s1.stk, s0.regs[RSP] - 8);
    forall a | a >= s0.regs[RSP]
      ensures Slot(s4.stk, a) == Slot(s0.stk, a)
    {
      assert Slot(s2.stk, a) == Slot(s1.stk, a);
    }
  }

  lemma SavedBack(n: nat, need: nat, s0: State, s1: State, s2: State, s3: State)
    requires n <= need <= 5 && Framed(s0, s1, n) && Keeps(s1, s2, 0, need) && Good16(s3)
    requires forall i :: 0 <= i < 5 && SlotUsed(need, i) ==>
               s3.regs[SaveReg(i)] == Slot(s2.stk, SlotAddr(s2.regs[RBP], i))
    requires forall q: Reg :: (forall i :: 0 <= i < 5 && SlotUsed(need, i) ==> q != SaveReg(i))
               ==> s3.regs[q] == s2.regs[q]
    ensures forall q: Reg :: q in {RBX, R12, R13, R14, R15} && !Lost(n, need, q) ==> s3.regs[q] == s0.regs[q]
    ensures Leftover(s0, s3, n, need)
  {
    SaveRegFacts();
    forall i | 0 <= i < 5
      ensures !Lost(n, need, SaveReg(i)) ==> s3.regs[SaveReg(i)] == s0.regs[SaveReg(i)]
      ensures n > 0 && SlotUsed(need, i) && !SlotUsed(n, i) ==>
                s3.regs[SaveReg(i)] == Slot(s0.stk, SlotAddr(s0.regs[RSP] - 8, i))
    {
      RegisterBack(n, need, i, s0, s1, s2, s3);
    }
    assert SaveReg(0) == RBX && SaveReg(1) == R12 && SaveReg(2) == R13 && SaveReg(3) == R14 && SaveReg(4) == R15;
  }

  /** One saved register: from its slot if the body may have used it, otherwise
      because the body kept it. */
  lemma RegisterBack(n: nat, need: nat, i: nat, s0: State, s1: State, s2: State, s3: State)
    requires i < 5 && n <= need <= 5 && Framed(s0, s1, n) && Keeps(s1, s2, 0, need) && Good16(s3)
    requires SlotUsed(need, i) ==> s3.regs[SaveReg(i)] == Slot(s2.stk, SlotAddr(s2.regs[RBP], i))
    requires !SlotUsed(need, i) ==> s3.regs[SaveReg(i)] == s2.regs[SaveReg(i)]
    ensures !Lost(n, need, SaveReg(i)) ==> s3.regs[SaveReg(i)] == s0.regs[SaveReg(i)]
    ensures n > 0 && SlotUsed(need, i) && !SlotUsed(n, i) ==>
              s3.regs[SaveReg(i)] == Slot(s0.stk, SlotAddr(s0.regs[RSP] - 8, i))
  {
    SaveRegFacts();
    var a := SlotAddr(s0.regs[RSP] - 8, i);
    if SlotUsed(need, i) {
      if n > 0 { assert Slot(s2.stk, a) == Slot(s1.stk, a); }
    } else {
      var p := if i == 0 then 4 else i - 1;
      assert s2.regs[Saved(p)] == s1.regs[Saved(p)];
    }
  }

  lemma RetAt(W: World, bytes: seq<byte>, off: int, s: State)
    requires Good16(s) && CodeAt(bytes, off, [Ret]) && InStack(W, s.regs[RSP]) && s.regs[RSP] + 8 < TWO64
    ensures Steps(W, bytes, At(off, s), 1)
         == Some(Returned(Slot(s.stk, s.regs[RSP]), SetReg(s, RSP, s.regs[RSP] + 8)))
  {
    hide Decode, Step;
    assert [Ret] == [Ret] + [];
    Fetched(bytes, off, Ret, []);
    OneStep(W, bytes, At(off, s));
  }
}
