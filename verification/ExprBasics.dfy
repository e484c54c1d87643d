/** What the code of an expression keeps, and the steps its correctness proof
    is made of. */
module ExprBasics {
  import opened Words
  import opened Isa
  import opened Machine
  import opened Source
  import opened Select

  /** RSP is in the stack region with `slots` free slots below it, and is
      16-byte aligned but for the d words that are pushed. */
  ghost predicate Ready(W: World, s: State, d: nat, slots: nat) {
    && Good16(s) && GoodWorld(W)
    && W.lo + 8 * slots <= s.regs[RSP] <= W.hi
    && (s.regs[RSP] + 8 * d) % 16 == 0
  }

  /** s' differs from s in nothing that must survive an expression compiled with
      k saved registers reserved that picks n more: RSP and RBP, every other
      saved register, and every stack slot at or above RSP. */
  ghost predicate Keeps(s: State, s': State, k: nat, n: nat) {
    && Good16(s) && Good16(s')
    && s'.regs[RSP] == s.regs[RSP]
    && s'.regs[RBP] == s.regs[RBP]
    && (forall i :: 0 <= i < 5 && (i < k || i >= k + n) ==> s'.regs[Saved(i)] == s.regs[Saved(i)])
    && (forall a :: a >= s.regs[RSP] ==> Slot(s'.stk, a) == Slot(s.stk, a))
  }

  /** The code runs without fault, leaving v in t and v's memory. */
  ghost predicate Done(W: World, code: seq<Instr>, s: State, t: Reg, v: Val, k: nat, n: nat) {
    && Good16(s)
    && var r := Run(W, code, s);
    && r.Some?
    && Keeps(s, r.value, k, n)
    && r.value.regs[t] == v.v
    && r.value.mem == v.mem
  }

  /** A register an expression may be computed in: RAX, or a reserved scratch
      register. */
  ghost predicate TargetOk(t: Reg, j: nat) {
    t == RAX || exists i :: 0 <= i < j && t == Scratch(i)
  }

  /** Nothing that is kept: not RSP, RBP or a saved register. */
  predicate Volatile(r: Reg) { r in {RAX, RCX, RDX, RSI, RDI, R8, R9, R10, R11} }

  lemma PoolFacts(t: Reg, j: nat)
    requires j <= 5 && TargetOk(t, j)
    ensures Volatile(t)
    ensures Volatile(Scratch(j))
    ensures t != Scratch(j)
    ensures TargetOk(Scratch(j), j + 1)
  {}

  lemma SavedFacts()
    ensures forall i :: 0 <= i < 5 ==> Saved(i) in {R12, R13, R14, R15, RBX}
    ensures forall i, i' :: 0 <= i < i' < 5 ==> Saved(i) != Saved(i')
  {}

  lemma KeepsTrans(s: State, s1: State, s2: State, k: nat, n: nat, k1: nat, n1: nat, k2: nat, n2: nat)
    requires Keeps(s, s1, k1, n1) && Keeps(s1, s2, k2, n2)
    requires k <= k1 && k1 + n1 <= k + n && k <= k2 && k2 + n2 <= k + n
    ensures Keeps(s, s2, k, n)
  {
    forall i | 0 <= i < 5 && (i < k || i >= k + n)
      ensures s2.regs[Saved(i)] == s.regs[Saved(i)]
    {
      assert s1.regs[Saved(i)] == s.regs[Saved(i)];
    }
    forall a | a >= s.regs[RSP]
      ensures Slot(s2.stk, a) == Slot(s.stk, a)
    {
      assert Slot(s1.stk, a) == Slot(s.stk, a);
    }
  }

  /** Changing volatile registers, flags and data memory keeps everything. */
  lemma KeepsSet(s: State, s': State, r: Reg, k: nat, n: nat)
    requires Good16(s) && Good16(s') && s'.stk == s.stk
    requires Volatile(r) || (k < 5 && n > 0 && r == Saved(k))
    requires forall q: Reg :: q != r ==> s'.regs[q] == s.regs[q]
    ensures Keeps(s, s', k, n)
  {
    SavedFacts();
  }

  lemma Then(W: World, a: seq<Instr>, b: seq<Instr>, s: State)
    requires Good16(s)
    requires Run(W, a, s).Some?
    ensures Run(W, a + b, s) == Run(W, b, Run(W, a, s).value)
  {
    RunConcat(W, a, b, s);
  }

  /** One instruction after a run. */
  lemma ThenOne(W: World, a: seq<Instr>, i: Instr, s: State)
    requires Good16(s)
    requires Run(W, a, s).Some?
    ensures Run(W, a + [i], s) == Step(W, i, Run(W, a, s).value)
  {
    hide Step, Run;
    Then(W, a, [i], s);
    RunOne(W, i, Run(W, a, s).value);
  }

  /** Data accesses read and write program memory. */
  lemma DataAccess(W: World, s: State, a: u64, v: u64)
    requires DataOk(W, a)
    ensures MemRead(W, s, a) == Some(Load64(s.mem, a))
    ensures MemWrite(W, s, a, v) == Some(s.(mem := Store64(s.mem, a, v)))
  {
    hide Load64, Store64;
  }

  lemma SetTwice(s: State, r: Reg, a: u64, b: u64)
    requires Good16(s)
    ensures SetReg(SetReg(s, r, a), r, b) == SetReg(s, r, b)
  {
    assert s.regs[r := a][r := b] == s.regs[r := b];
  }

  lemma EaZero(s: State, r: Reg)
    requires Good16(s)
    ensures Ea(s, r, 0) == s.regs[r]
  {}

  lemma ConstRun(W: World, n: u64, t: Reg, s: State)
    requires Good16(s)
    ensures Run(W, [MovConst(t, n)], s) == Some(SetReg(s, t, n))
    ensures Run(W, [MovImm64(t, n)], s) == Some(SetReg(s, t, n))
  {
    RunOne(W, MovConst(t, n), s);
    RunOne(W, MovImm64(t, n), s);
  }

  /** A leaf is loaded without touching anything but its register. */
  lemma LeafRun(W: World, e: Expr, t: Reg, addr: bool, s: State)
    requires Good16(s) && IsLeaf(e)
    requires Eval(W, e, addr, s.mem).Some?
    ensures Run(W, LeafCode(e, t, addr), s) == Some(SetReg(s, t, Eval(W, e, addr, s.mem).value.v))
    ensures Eval(W, e, addr, s.mem).value.mem == s.mem
  {
    hide Load64, Store64, Run, Step, MovConst, SetReg;
    match e
    case Num(n) => ConstRun(W, n, t, s);
    case Str(p) => ConstRun(W, p, t, s);
    case Cell(a) =>
      if addr {
        assert LeafCode(e, t, true) == [MovImm64(t, a)];
        ConstRun(W, a, t, s);
      } else {
        CellRun(W, a, t, s);
      }
  }

  lemma CellRun(W: World, a: u64, t: Reg, s: State)
    requires Good16(s) && DataOk(W, a)
    ensures Run(W, LeafCode(Cell(a), t, false), s) == Some(SetReg(s, t, Load64(s.mem, a)))
  {
    hide Load64, Store64;
    DataAccess(W, s, a, 0);
    if t == RAX {
      RunOne(W, LoadRaxAbs(a), s);
    } else {
      var i1, i2 := MovImm64(t, a), Load(t, t, 0);
      RunOne(W, i1, s);
      var s1 := SetReg(s, t, a);
      ThenOne(W, [i1], i2, s);
      EaZero(s1, t);
      DataAccess(W, s1, a, 0);
      SetTwice(s, t, a, Load64(s.mem, a));
      assert [i1] + [i2] == LeafCode(Cell(a), t, false);
    }
  }

  /** The value of a leaf as Eval and as LeafVal see it. */
  lemma LeafEval(W: World, e: Expr, m: Mem)
    requires IsLeaf(e)
    ensures Eval(W, e, false, m) == match LeafVal(W, e, m) case Some(v) => Some(Val(v, m)) case None => None
  {}
}
