/** One lemma for each shape of operand: what its code does, given what the code
    of its parts does. */
module ExprCases {
  import opened Words
  import opened Isa
  import opened Machine
  import opened Source
  import opened Select
  import opened ExprBasics

  lemma ReadyKeeps(W: World, s: State, s': State, d: nat, slots: nat, fewer: nat, k: nat, n: nat)
    requires Ready(W, s, d, slots) && Keeps(s, s', k, n) && fewer <= slots
    ensures Ready(W, s', d, fewer)
  {}

  /** The state in which a complex right operand starts: the left value is also
      in the saved register k. */
  ghost function Held(W: World, cl: seq<Instr>, s: State, k: nat, a: u64): State
    requires Good16(s) && Run(W, cl, s).Some?
  {
    SetReg(Run(W, cl, s).value, Saved(k), a)
  }

  lemma HeldReady(W: World, cl: seq<Instr>, s: State, t: Reg, a: Val, k: nat, n: nat, d: nat, slots: nat, fewer: nat)
    requires Done(W, cl, s, t, a, k, n) && Ready(W, s, d, slots) && fewer <= slots && k < 5
    ensures Ready(W, Held(W, cl, s, k, a.v), d, fewer)
    ensures Held(W, cl, s, k, a.v).mem == a.mem
  {
    SavedFacts();
  }

  /** Left operand, saved, then a complex right operand: the left value is in
      the saved register and the right one in t. */
  lemma HoldRight(W: World, cl: seq<Instr>, cr: seq<Instr>, t: Reg, k: nat, j: nat, s: State,
                  a: Val, b: Val, nl: nat, nr: nat)
    requires Done(W, cl, s, t, a, k, nl)
    requires Done(W, cr, Held(W, cl, s, k, a.v), t, b, k + 1, nr)
    requires k + 1 + nr <= 5 && j <= k && TargetOk(t, j)
    ensures Done(W, cl + Mov(Saved(k), t) + cr, s, t, b, k, MaxInt(nl, 1 + nr))
    ensures Run(W, cl + Mov(Saved(k), t) + cr, s).value.regs[Saved(k)] == a.v
  {
    hide Run, Step;
    PoolFacts(t, j);
    SavedFacts();
    var n := MaxInt(nl, 1 + nr);
    var s1, h := Run(W, cl, s).value, Held(W, cl, s, k, a.v);
    HeldStep(W, cl, t, k, s, a.v);
    Then(W, cl + Mov(Saved(k), t), cr, s);
    var s2 := Run(W, cr, h).value;
    KeepsSet(s1, h, Saved(k), k, 1);
    KeepsTrans(s, s1, h, k, n, k, nl, k, 1);
    KeepsTrans(s, h, s2, k, n, k, n, k + 1, nr);
    assert s2.regs[Saved(k)] == h.regs[Saved(k)];
  }

  lemma HeldStep(W: World, cl: seq<Instr>, t: Reg, k: nat, s: State, a: u64)
    requires Good16(s) && k < 5 && Volatile(t)
    requires Run(W, cl, s).Some? && Run(W, cl, s).value.regs[t] == a
    ensures Run(W, cl + Mov(Saved(k), t), s) == Some(Held(W, cl, s, k, a))
  {
    hide Run;
    SavedFacts();
    assert Mov(Saved(k), t) == [MovRR(Saved(k), t)];
    ThenOne(W, cl, MovRR(Saved(k), t), s);
  }

  /** A leaf right operand goes to a scratch register and nothing else changes. */
  lemma LeafRight(W: World, cl: seq<Instr>, e: Expr, t: Reg, k: nat, j: nat, s: State,
                  a: Val, b: u64, n: nat)
    requires Done(W, cl, s, t, a, k, n)
    requires k <= 5 && j <= k && TargetOk(t, j)
    requires IsLeaf(e) && LeafVal(W, e, a.mem) == Some(b)
    ensures Done(W, cl + LeafCode(e, Scratch(j), false), s, t, a, k, n)
    ensures Run(W, cl + LeafCode(e, Scratch(j), false), s).value.regs[Scratch(j)] == b
  {
    hide Run, Step, LeafCode;
    PoolFacts(t, j);
    var s1 := Run(W, cl, s).value;
    LeafEval(W, e, s1.mem);
    LeafRun(W, e, Scratch(j), false, s1);
    var s2 := SetReg(s1, Scratch(j), b);
    Then(W, cl, LeafCode(e, Scratch(j), false), s);
    KeepsSet(s1, s2, Scratch(j), k, n);
    KeepsTrans(s, s1, s2, k, n, k, n, k, n);
  }

  /** Finishing with instructions that compute v into t from the state reached. */
  lemma Finish(W: World, c: seq<Instr>, i: Instr, s: State, t: Reg, k: nat, n: nat, j: nat, v: Val)
    requires Good16(s) && Run(W, c, s).Some? && Keeps(s, Run(W, c, s).value, k, n)
    requires k <= 5 && j <= k && TargetOk(t, j)
    requires var s1 := Run(W, c, s).value;
             var r := Step(W, i, s1);
             r.Some? && r.value.regs == s1.regs[t := v.v] && r.value.stk == s1.stk && r.value.mem == v.mem
    ensures Done(W, c + [i], s, t, v, k, n)
  {
    hide Run, Step;
    PoolFacts(t, j);
    var s1 := Run(W, c, s).value;
    ThenOne(W, c, i, s);
    var s2 := Step(W, i, s1).value;
    KeepsSet(s1, s2, t, k, n);
    KeepsTrans(s, s1, s2, k, n, k, n, k, n);
  }

  // ------------------------------------------------------- binary operators

  /** After BinCode: both operands are evaluated and the operation is in
      BinReg; a comparison has set the flags and left one operand in t. */
  ghost predicate BinDone(W: World, code: seq<Instr>, e: Expr, s: State, t: Reg, k: nat, n: nat,
                          a: u64, b: u64, m: Mem)
    requires e.Bin?
  {
    && Good16(s)
    && var r := Run(W, code, s);
    && r.Some?
    && Keeps(s, r.value, k, n)
    && r.value.mem == m
    && (if IsCompare(e.op) then
          r.value.flags == CmpFlags(a, b) && r.value.regs[t] == (if IsLeaf(e.right) then a else b)
        else r.value.regs[BinReg(e.right, t, k)] == Apply(e.op, a, b))
  }

  lemma Pow2Of31()
    ensures Pow2(31) == TWO31
  {
    assert Pow2(4) == 0x10;
    assert Pow2(8) == 0x100;
    assert Pow2(12) == 0x1000;
    assert Pow2(16) == 0x10000;
    assert Pow2(20) == 0x100000;
    assert Pow2(24) == 0x1000000;
    assert Pow2(28) == 0x10000000;
  }

  lemma Log2Small(n: nat)
    requires n < TWO31
    ensures Log2(n) < 31
  {
    Pow2Of31();
    Log2Bound(n, 31);
  }

  lemma {:induction false} Log2Bound(n: nat, p: nat)
    requires n < Pow2(p) && p > 0
    ensures Log2(n) < p
  {
    if n > 1 {
      assert Pow2(1) == 2;
      assert Pow2(p) == 2 * Pow2(p - 1);
      Log2Bound(n / 2, p - 1);
    }
  }

  /** Immediate forms of the arithmetic operators, shift for multiply included. */
  lemma AluImmRun(W: World, op: BinOp, t: Reg, n: nat, s: State, a: u64)
    requires Good16(s) && n <= INT32_MAX && !IsCompare(op) && s.regs[t] == a
    ensures var r := Run(W, AluImmCode(op, t, n), s);
            r.Some? && r.value.regs == s.regs[t := Apply(op, a, n)] && r.value.stk == s.stk && r.value.mem == s.mem
  {
    hide Mul64, Run, Step;
    match op
    case Add => AddImmRun(W, Add, t, n, s, a);
    case Sub => AddImmRun(W, Sub, t, n, s, a);
    case Mul => MulImmRun(W, t, n, s, a);
  }

  lemma AddImmRun(W: World, op: BinOp, t: Reg, n: nat, s: State, a: u64)
    requires Good16(s) && n <= INT32_MAX && op in {Add, Sub} && s.regs[t] == a
    ensures var r := Run(W, AluImmCode(op, t, n), s);
            r.Some? && r.value.regs == s.regs[t := Apply(op, a, n)] && r.value.stk == s.stk && r.value.mem == s.mem
  {
    hide CallStep, Mul64;
    if n == 0 {
      assert s.regs == s.regs[t := a];
    } else {
      RunOne(W, AluImm(if op == Add then AddOp else SubOp, t, n), s);
    }
  }

  lemma MulImmRun(W: World, t: Reg, n: nat, s: State, a: u64)
    requires Good16(s) && n <= INT32_MAX && s.regs[t] == a
    ensures var r := Run(W, AluImmCode(Mul, t, n), s);
            r.Some? && r.value.regs == s.regs[t := Mul64(a, n)] && r.value.stk == s.stk && r.value.mem == s.mem
  {
    hide Pow2, Log2, Step;
    if n == 1 {
      assert Mul64(a, 1) == a;
      assert s.regs == s.regs[t := a];
    } else if IsPow2(n) {
      Log2Small(n);
      RunOne(W, ShlImm(t, Log2(n)), s);
      ShlStep(W, t, Log2(n), s);
    } else {
      RunOne(W, ImulImm(t, n), s);
      ImulStep(W, t, n, s);
    }
  }

  lemma ImulStep(W: World, t: Reg, n: nat, s: State)
    requires Good16(s)
    ensures Step(W, ImulImm(t, n), s) == Some(SetReg(s, t, Mul64(s.regs[t], n)).(flags := Undefined))
  {
    hide Mul64;
  }

  lemma ShlStep(W: World, t: Reg, n: nat, s: State)
    requires Good16(s) && n < 31
    ensures Step(W, ShlImm(t, n), s) == Some(SetReg(s, t, Mul64(s.regs[t], Pow2(n))).(flags := Undefined))
  {
    hide Pow2, Mul64;
    assert n % 64 == n;
  }

  lemma BinImm(W: World, e: Expr, cl: seq<Instr>, t: Reg, k: nat, j: nat, s: State, a: Val, n: nat)
    requires e.Bin? && SmallImm(e.right)
    requires Done(W, cl, s, t, a, k, n)
    requires k <= 5 && j <= k && TargetOk(t, j)
    ensures BinDone(W, cl + AluImmCode(e.op, t, e.right.n), e, s, t, k, n, a.v, e.right.n, a.mem)
  {
    hide Run, Step;
    PoolFacts(t, j);
    var s1 := Run(W, cl, s).value;
    var c := AluImmCode(e.op, t, e.right.n);
    Then(W, cl, c, s);
    if IsCompare(e.op) {
      RunOne(W, AluImm(CmpOp, t, e.right.n), s1);
      CmpStep(W, AluImm(CmpOp, t, e.right.n), s1);
      var s2 := Run(W, c, s1).value;
      KeepsSet(s1, s2, t, k, n);
      KeepsTrans(s, s1, s2, k, n, k, n, k, n);
    } else {
      hide AluImmCode;
      AluImmRun(W, e.op, t, e.right.n, s1, a.v);
      var s2 := Run(W, c, s1).value;
      KeepsSet(s1, s2, t, k, n);
      KeepsTrans(s, s1, s2, k, n, k, n, k, n);
    }
  }

  lemma CmpStep(W: World, i: Instr, s: State)
    requires Good16(s)
    requires (i.AluImm? && i.op == CmpOp && 0 <= i.imm < TWO64) || (i.AluRR? && i.op == CmpOp)
    ensures Step(W, i, s)
         == Some(s.(flags := CmpFlags(s.regs[i.dst], if i.AluImm? then i.imm else s.regs[i.src])))
  {}

  /** The register form of an operator. */
  lemma AluRRStep(W: World, op: BinOp, dst: Reg, src: Reg, s: State)
    requires Good16(s)
    ensures var r := Step(W, AluRRCode(op, dst, src), s);
            r.Some? && r.value.stk == s.stk && r.value.mem == s.mem
    ensures var r := Step(W, AluRRCode(op, dst, src), s).value;
            if IsCompare(op) then r.regs == s.regs && r.flags == CmpFlags(s.regs[dst], s.regs[src])
            else r.regs == s.regs[dst := Apply(op, s.regs[dst], s.regs[src])]
  {
    hide CmpFlags, Mul64, Add64, Sub64;
  }

  lemma BinLeaf(W: World, e: Expr, cl: seq<Instr>, t: Reg, k: nat, j: nat, s: State, a: Val, b: u64, n: nat)
    requires e.Bin? && IsLeaf(e.right) && LeafVal(W, e.right, a.mem) == Some(b)
    requires Done(W, cl, s, t, a, k, n)
    requires k <= 5 && j <= k && TargetOk(t, j)
    ensures BinDone(W, cl + (LeafCode(e.right, Scratch(j), false) + [AluRRCode(e.op, t, Scratch(j))]),
                    e, s, t, k, n, a.v, b, a.mem)
  {
    hide Run, Step, LeafCode, AluRRCode;
    PoolFacts(t, j);
    var c := cl + LeafCode(e.right, Scratch(j), false);
    var i := AluRRCode(e.op, t, Scratch(j));
    LeafRight(W, cl, e.right, t, k, j, s, a, b, n);
    var s1 := Run(W, c, s).value;
    ThenOne(W, c, i, s);
    AluRRStep(W, e.op, t, Scratch(j), s1);
    var s2 := Step(W, i, s1).value;
    KeepsSet(s1, s2, t, k, n);
    KeepsTrans(s, s1, s2, k, n, k, n, k, n);
    assert cl + (LeafCode(e.right, Scratch(j), false) + [i]) == c + [i];
  }

  lemma BinComplex(W: World, e: Expr, cl: seq<Instr>, cr: seq<Instr>, t: Reg, k: nat, j: nat, s: State,
                   a: Val, b: Val, nl: nat, nr: nat)
    requires e.Bin? && !IsLeaf(e.right)
    requires Done(W, cl, s, t, a, k, nl)
    requires Done(W, cr, Held(W, cl, s, k, a.v), t, b, k + 1, nr)
    requires k + 1 + nr <= 5 && j <= k && TargetOk(t, j)
    ensures BinDone(W, cl + (Mov(Saved(k), t) + cr + [AluRRCode(e.op, Saved(k), t)]),
                    e, s, t, k, MaxInt(nl, 1 + nr), a.v, b.v, b.mem)
  {
    hide Run, Step, AluRRCode, Mov;
    PoolFacts(t, j);
    SavedFacts();
    var n := MaxInt(nl, 1 + nr);
    var c := cl + Mov(Saved(k), t) + cr;
    var i := AluRRCode(e.op, Saved(k), t);
    HoldRight(W, cl, cr, t, k, j, s, a, b, nl, nr);
    var s1 := Run(W, c, s).value;
    ThenOne(W, c, i, s);
    AluRRStep(W, e.op, Saved(k), t, s1);
    var s2 := Step(W, i, s1).value;
    KeepsSet(s1, s2, Saved(k), k, n);
    KeepsTrans(s, s1, s2, k, n, k, n, k, n);
    assert cl + (Mov(Saved(k), t) + cr + [i]) == c + [i];
  }

  /** From the operation to its value in t. */
  lemma BinFinish(W: World, e: Expr, c: seq<Instr>, t: Reg, k: nat, j: nat, s: State,
                  a: u64, b: u64, m: Mem, n: nat)
    requires e.Bin? && BinDone(W, c, e, s, t, k, n, a, b, m)
    requires k + NeedRight(e.right) <= 5 && j <= k && TargetOk(t, j)
    ensures Done(W, c + (if IsCompare(e.op) then [SetCC(CompareCC(e.op), t), Movzx8(t, t)]
                         else Mov(t, BinReg(e.right, t, k))),
                 s, t, Val(Apply(e.op, a, b), m), k, n)
  {
    hide Run, Step;
    PoolFacts(t, j);
    if IsCompare(e.op) {
      CompareFinish(W, e.op, c, t, k, j, s, a, b, m, n);
    } else if BinReg(e.right, t, k) == t {
      assert c + Mov(t, t) == c;
    } else {
      var s1 := Run(W, c, s).value;
      MovStep(W, t, Saved(k), s1);
      Finish(W, c, MovRR(t, Saved(k)), s, t, k, n, j, Val(Apply(e.op, a, b), m));
    }
  }

  lemma MovStep(W: World, dst: Reg, src: Reg, s: State)
    requires Good16(s)
    ensures Step(W, MovRR(dst, src), s) == Some(SetReg(s, dst, s.regs[src]))
  {}

  /** setcc then movzx materialise the truth value. */
  lemma SetCCSteps(W: World, op: BinOp, t: Reg, s: State, a: u64, b: u64)
    requires IsCompare(op) && Good16(s) && s.flags == CmpFlags(a, b)
    ensures var r := Step(W, SetCC(CompareCC(op), t), s);
            r.Some? && r.value.stk == s.stk && r.value.mem == s.mem
            && (forall q: Reg :: q != t ==> r.value.regs[q] == s.regs[q])
            && Step(W, Movzx8(t, t), r.value) == Some(SetReg(r.value, t, Apply(op, a, b)))
  {
    CondMeaning(a, b);
    hide CmpFlags;
    var low: u64 := Apply(op, a, b);
    assert Cond(CompareCC(op), s.flags) == Some(low == 1);
    hide Cond, Apply;
    var s1 := SetReg(s, t, s.regs[t] - s.regs[t] % 256 + low);
    assert Step(W, SetCC(CompareCC(op), t), s) == Some(s1);
    assert s1.regs[t] % 256 == low;
  }

  lemma CompareFinish(W: World, op: BinOp, c: seq<Instr>, t: Reg, k: nat, j: nat, s: State,
                      a: u64, b: u64, m: Mem, n: nat)
    requires IsCompare(op) && Good16(s) && Run(W, c, s).Some?
    requires var r := Run(W, c, s).value; Keeps(s, r, k, n) && r.mem == m && r.flags == CmpFlags(a, b)
    requires k <= 5 && j <= k && TargetOk(t, j)
    ensures Done(W, c + [SetCC(CompareCC(op), t), Movzx8(t, t)], s, t, Val(Apply(op, a, b), m), k, n)
  {
    hide Run, Step;
    PoolFacts(t, j);
    var i1, i2 := SetCC(CompareCC(op), t), Movzx8(t, t);
    var s1 := Run(W, c, s).value;
    var low: u64 := Apply(op, a, b);
    SetCCSteps(W, op, t, s1, a, b);
    var s2 := Step(W, i1, s1).value;
    ThenOne(W, c, i1, s);
    KeepsSet(s1, s2, t, k, n);
    KeepsTrans(s, s1, s2, k, n, k, n, k, n);
    Finish(W, c + [i1], i2, s, t, k, n, j, Val(low, m));
    assert c + [i1, i2] == c + [i1] + [i2];
  }
}
