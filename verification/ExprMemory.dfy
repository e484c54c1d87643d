/** Indexing, assignment and array literals. */
module ExprMemory {
  import opened Words
  import opened Isa
  import opened Machine
  import opened Source
  import opened Select
  import opened ExprBasics
  import opened ExprCases

  lemma LoadStep(W: World, dst: Reg, base: Reg, s: State)
    requires Good16(s) && DataOk(W, s.regs[base])
    ensures Step(W, Load(dst, base, 0), s) == Some(SetReg(s, dst, Load64(s.mem, s.regs[base])))
  {
    hide Load64, Store64;
    EaZero(s, base);
    DataAccess(W, s, s.regs[base], 0);
  }

  lemma StoreStep(W: World, base: Reg, src: Reg, s: State)
    requires Good16(s) && DataOk(W, s.regs[base])
    ensures Step(W, Store(base, 0, src), s)
         == Some(s.(mem := Store64(s.mem, s.regs[base], s.regs[src])))
  {
    hide Load64, Store64;
    EaZero(s, base);
    DataAccess(W, s, s.regs[base], s.regs[src]);
  }

  lemma AddMemStep(W: World, base: Reg, src: Reg, s: State)
    requires Good16(s) && DataOk(W, s.regs[base])
    ensures Step(W, AddMem(base, 0, src), s)
         == Some(s.(mem := Store64(s.mem, s.regs[base], Add64(Load64(s.mem, s.regs[base]), s.regs[src])),
                    flags := Undefined))
  {
    hide Load64, Store64, Add64;
    EaZero(s, base);
    DataAccess(W, s, s.regs[base], 0);
    var v := Add64(Load64(s.mem, s.regs[base]), s.regs[src]);
    DataAccess(W, s.(flags := Undefined), s.regs[base], v);
  }

  lemma LeaStep(W: World, dst: Reg, base: Reg, index: Reg, s: State)
    requires Good16(s)
    ensures Step(W, LeaIdx8(dst, base, index), s)
         == Some(SetReg(s, dst, Scaled(s.regs[base], s.regs[index])))
  {
    hide Scaled;
  }

  // ---------------------------------------------------------------- indexing

  lemma IndexSmall(W: World, cb: seq<Instr>, t: Reg, k: nat, j: nat, s: State, b: Val, i: nat, n: nat)
    requires Done(W, cb, s, t, b, k, n) && i <= INT32_MAX / 8
    requires k <= 5 && j <= k && TargetOk(t, j)
    ensures Done(W, cb + (if i == 0 then [] else [AluImm(AddOp, t, 8 * i)]), s, t, Val(Scaled(b.v, i), b.mem), k, n)
  {
    hide Run, Step;
    if i == 0 {
      assert cb + [] == cb;
    } else {
      var s1 := Run(W, cb, s).value;
      AddStep(W, t, 8 * i, s1);
      Finish(W, cb, AluImm(AddOp, t, 8 * i), s, t, k, n, j, Val(Scaled(b.v, i), b.mem));
    }
  }

  lemma AddStep(W: World, t: Reg, imm: nat, s: State)
    requires Good16(s) && imm < TWO31
    ensures Step(W, AluImm(AddOp, t, imm), s)
         == Some(SetReg(s, t, Add64(s.regs[t], imm)).(flags := Undefined))
  {
    hide Add64;
  }

  lemma IndexLeaf(W: World, cb: seq<Instr>, e: Expr, t: Reg, k: nat, j: nat, s: State, b: Val, i: u64, n: nat)
    requires Done(W, cb, s, t, b, k, n)
    requires IsLeaf(e) && LeafVal(W, e, b.mem) == Some(i)
    requires k <= 5 && j <= k && TargetOk(t, j)
    ensures Done(W, cb + (LeafCode(e, Scratch(j), false) + [LeaIdx8(t, t, Scratch(j))]),
                 s, t, Val(Scaled(b.v, i), b.mem), k, n)
  {
    hide Run, Step, LeafCode;
    LeafRight(W, cb, e, t, k, j, s, b, i, n);
    var c := cb + LeafCode(e, Scratch(j), false);
    LeaStep(W, t, t, Scratch(j), Run(W, c, s).value);
    Finish(W, c, LeaIdx8(t, t, Scratch(j)), s, t, k, n, j, Val(Scaled(b.v, i), b.mem));
    assert cb + (LeafCode(e, Scratch(j), false) + [LeaIdx8(t, t, Scratch(j))]) == c + [LeaIdx8(t, t, Scratch(j))];
  }

  lemma IndexComplex(W: World, cb: seq<Instr>, ci: seq<Instr>, t: Reg, k: nat, j: nat, s: State,
                     b: Val, i: Val, nb: nat, ni: nat)
    requires Done(W, cb, s, t, b, k, nb)
    requires Done(W, ci, Held(W, cb, s, k, b.v), t, i, k + 1, ni)
    requires k + 1 + ni <= 5 && j <= k && TargetOk(t, j)
    ensures Done(W, cb + (Mov(Saved(k), t) + ci + [LeaIdx8(t, Saved(k), t)]),
                 s, t, Val(Scaled(b.v, i.v), i.mem), k, MaxInt(nb, 1 + ni))
  {
    hide Run, Step, Mov;
    HoldRight(W, cb, ci, t, k, j, s, b, i, nb, ni);
    var c := cb + Mov(Saved(k), t) + ci;
    LeaStep(W, t, Saved(k), t, Run(W, c, s).value);
    Finish(W, c, LeaIdx8(t, Saved(k), t), s, t, k, MaxInt(nb, 1 + ni), j, Val(Scaled(b.v, i.v), i.mem));
    assert cb + (Mov(Saved(k), t) + ci + [LeaIdx8(t, Saved(k), t)]) == c + [LeaIdx8(t, Saved(k), t)];
  }

  /** Value mode loads what the address points to. */
  lemma LoadThrough(W: World, c: seq<Instr>, t: Reg, k: nat, j: nat, s: State, a: Val, n: nat)
    requires Done(W, c, s, t, a, k, n) && DataOk(W, a.v)
    requires k <= 5 && j <= k && TargetOk(t, j)
    ensures Done(W, c + [Load(t, t, 0)], s, t, Val(Load64(a.mem, a.v), a.mem), k, n)
  {
    hide Run, Step, Load64;
    LoadStep(W, t, t, Run(W, c, s).value);
    Finish(W, c, Load(t, t, 0), s, t, k, n, j, Val(Load64(a.mem, a.v), a.mem));
  }

  // -------------------------------------------------------------- assignment

  /** An instruction that only writes data memory (and perhaps flags). */
  lemma FinishMem(W: World, c: seq<Instr>, i: Instr, s: State, t: Reg, k: nat, n: nat, v: Val)
    requires Good16(s) && Run(W, c, s).Some? && Keeps(s, Run(W, c, s).value, k, n)
    requires var s1 := Run(W, c, s).value;
             var r := Step(W, i, s1);
             r.Some? && r.value.regs == s1.regs && r.value.stk == s1.stk
             && r.value.mem == v.mem && s1.regs[t] == v.v
    ensures Done(W, c + [i], s, t, v, k, n)
  {
    hide Run, Step;
    var s1 := Run(W, c, s).value;
    ThenOne(W, c, i, s);
    var s2 := Step(W, i, s1).value;
    KeepsSet(s1, s2, RAX, k, n);
    KeepsTrans(s, s1, s2, k, n, k, n, k, n);
  }

  lemma AssignCell(W: World, cv: seq<Instr>, t: Reg, k: nat, j: nat, s: State, a: u64, v: Val, n: nat)
    requires Done(W, cv, s, t, v, k, n) && DataOk(W, a)
    requires k <= 5 && j <= k && TargetOk(t, j)
    ensures Done(W, cv + (if t == RAX then [StoreRaxAbs(a)] else [MovImm64(Scratch(j), a), Store(Scratch(j), 0, t)]),
                 s, t, Val(v.v, Store64(v.mem, a, v.v)), k, n)
  {
    hide Run, Store64, Load64;
    PoolFacts(t, j);
    var s1 := Run(W, cv, s).value;
    if t == RAX {
      DataAccess(W, s1, a, s1.regs[RAX]);
      assert Step(W, StoreRaxAbs(a), s1) == Some(s1.(mem := Store64(s1.mem, a, v.v)));
      hide Step;
      FinishMem(W, cv, StoreRaxAbs(a), s, t, k, n, Val(v.v, Store64(v.mem, a, v.v)));
    } else {
      var i1, i2 := MovImm64(Scratch(j), a), Store(Scratch(j), 0, t);
      assert Step(W, i1, s1) == Some(SetReg(s1, Scratch(j), a));
      hide Step;
      ThenOne(W, cv, i1, s);
      var s2 := SetReg(s1, Scratch(j), a);
      KeepsSet(s1, s2, Scratch(j), k, n);
      KeepsTrans(s, s1, s2, k, n, k, n, k, n);
      StoreStep(W, Scratch(j), t, s2);
      FinishMem(W, cv + [i1], i2, s, t, k, n, Val(v.v, Store64(v.mem, a, v.v)));
      assert cv + [i1, i2] == cv + [i1] + [i2];
    }
  }

  lemma AssignLeaf(W: World, ct: seq<Instr>, e: Expr, t: Reg, k: nat, j: nat, s: State, a: Val, v: u64, n: nat)
    requires Done(W, ct, s, t, a, k, n) && DataOk(W, a.v)
    requires IsLeaf(e) && LeafVal(W, e, a.mem) == Some(v)
    requires k <= 5 && j <= k && TargetOk(t, j)
    ensures Done(W, ct + (LeafCode(e, Scratch(j), false) + [Store(t, 0, Scratch(j))] + Mov(t, Scratch(j))),
                 s, t, Val(v, Store64(a.mem, a.v, v)), k, n)
  {
    hide Run, Step, LeafCode, Store64, Load64;
    PoolFacts(t, j);
    var c := ct + LeafCode(e, Scratch(j), false);
    var i1, i2 := Store(t, 0, Scratch(j)), MovRR(t, Scratch(j));
    LeafRight(W, ct, e, t, k, j, s, a, v, n);
    var s1 := Run(W, c, s).value;
    StoreStep(W, t, Scratch(j), s1);
    FinishMem(W, c, i1, s, Scratch(j), k, n, Val(v, Store64(a.mem, a.v, v)));
    var s2 := Run(W, c + [i1], s).value;
    MovStep(W, t, Scratch(j), s2);
    Finish(W, c + [i1], i2, s, t, k, n, j, Val(v, Store64(a.mem, a.v, v)));
    assert ct + (LeafCode(e, Scratch(j), false) + [i1] + Mov(t, Scratch(j))) == c + [i1] + [i2];
  }

  lemma AssignComplex(W: World, ct: seq<Instr>, cv: seq<Instr>, t: Reg, k: nat, j: nat, s: State,
                      a: Val, v: Val, na: nat, nv: nat)
    requires Done(W, ct, s, t, a, k, na) && DataOk(W, a.v)
    requires Done(W, cv, Held(W, ct, s, k, a.v), t, v, k + 1, nv)
    requires k + 1 + nv <= 5 && j <= k && TargetOk(t, j)
    ensures Done(W, ct + (Mov(Saved(k), t) + cv + [Store(Saved(k), 0, t)]),
                 s, t, Val(v.v, Store64(v.mem, a.v, v.v)), k, MaxInt(na, 1 + nv))
  {
    hide Run, Step, Mov, Store64, Load64;
    HoldRight(W, ct, cv, t, k, j, s, a, v, na, nv);
    var c := ct + Mov(Saved(k), t) + cv;
    StoreStep(W, Saved(k), t, Run(W, c, s).value);
    FinishMem(W, c, Store(Saved(k), 0, t), s, t, k, MaxInt(na, 1 + nv), Val(v.v, Store64(v.mem, a.v, v.v)));
    assert ct + (Mov(Saved(k), t) + cv + [Store(Saved(k), 0, t)]) == c + [Store(Saved(k), 0, t)];
  }

  // ---------------------------------------------------------------------- +=

  /** add [p], v ; load t, [p] leaves the new cell value in t. */
  lemma AddThenLoad(W: World, c: seq<Instr>, p: Reg, src: Reg, t: Reg, k: nat, j: nat, s: State, n: nat, m: Mem, a: u64, v: u64)
    requires Good16(s) && Run(W, c, s).Some? && Keeps(s, Run(W, c, s).value, k, n)
    requires var s1 := Run(W, c, s).value; s1.regs[p] == a && s1.regs[src] == v && s1.mem == m
    requires DataOk(W, a) && k <= 5 && j <= k && TargetOk(t, j)
    ensures var new_ := Add64(Load64(m, a), v);
            Done(W, c + [AddMem(p, 0, src), Load(t, p, 0)], s, t, Val(new_, Store64(m, a, new_)), k, n)
  {
    hide Run, Step, Store64, Load64, Add64;
    var i1, i2 := AddMem(p, 0, src), Load(t, p, 0);
    var new_ := Add64(Load64(m, a), v);
    var s1 := Run(W, c, s).value;
    AddMemStep(W, p, src, s1);
    FinishMem(W, c, i1, s, p, k, n, Val(a, Store64(m, a, new_)));
    var s2 := Run(W, c + [i1], s).value;
    LoadStep(W, t, p, s2);
    LoadStore(m, a, new_, a);
    Finish(W, c + [i1], i2, s, t, k, n, j, Val(new_, Store64(m, a, new_)));
    assert c + [i1, i2] == c + [i1] + [i2];
  }

  lemma AddAssignLeaf(W: World, ct: seq<Instr>, e: Expr, t: Reg, k: nat, j: nat, s: State, a: Val, v: u64, n: nat)
    requires Done(W, ct, s, t, a, k, n) && DataOk(W, a.v)
    requires IsLeaf(e) && LeafVal(W, e, a.mem) == Some(v)
    requires k <= 5 && j <= k && TargetOk(t, j)
    ensures var new_ := Add64(Load64(a.mem, a.v), v);
            Done(W, ct + (LeafCode(e, Scratch(j), false) + [AddMem(t, 0, Scratch(j)), Load(t, t, 0)]),
                 s, t, Val(new_, Store64(a.mem, a.v, new_)), k, n)
  {
    hide Run, Step, LeafCode, Store64, Load64, Add64;
    PoolFacts(t, j);
    var c := ct + LeafCode(e, Scratch(j), false);
    LeafRight(W, ct, e, t, k, j, s, a, v, n);
    AddThenLoad(W, c, t, Scratch(j), t, k, j, s, n, a.mem, a.v, v);
    assert ct + (LeafCode(e, Scratch(j), false) + [AddMem(t, 0, Scratch(j)), Load(t, t, 0)])
        == c + [AddMem(t, 0, Scratch(j)), Load(t, t, 0)];
  }

  lemma AddAssignComplex(W: World, ct: seq<Instr>, cv: seq<Instr>, t: Reg, k: nat, j: nat, s: State,
                         a: Val, v: Val, na: nat, nv: nat)
    requires Done(W, ct, s, t, a, k, na) && DataOk(W, a.v)
    requires Done(W, cv, Held(W, ct, s, k, a.v), t, v, k + 1, nv)
    requires k + 1 + nv <= 5 && j <= k && TargetOk(t, j)
    ensures var new_ := Add64(Load64(v.mem, a.v), v.v);
            Done(W, ct + (Mov(Saved(k), t) + cv + [AddMem(Saved(k), 0, t), Load(t, Saved(k), 0)]),
                 s, t, Val(new_, Store64(v.mem, a.v, new_)), k, MaxInt(na, 1 + nv))
  {
    hide Run, Step, Mov, Store64, Load64, Add64;
    HoldRight(W, ct, cv, t, k, j, s, a, v, na, nv);
    var c := ct + Mov(Saved(k), t) + cv;
    AddThenLoad(W, c, Saved(k), t, t, k, j, s, MaxInt(na, 1 + nv), v.mem, a.v, v.v);
    assert ct + (Mov(Saved(k), t) + cv + [AddMem(Saved(k), 0, t), Load(t, Saved(k), 0)])
        == c + [AddMem(Saved(k), 0, t), Load(t, Saved(k), 0)];
  }

  // ------------------------------------------------------------ array literals

  /** Slot i of an array at p gets the value, at its exact offset. */
  lemma ElemAddress(s: State, p: Reg, i: nat)
    requires Good16(s) && i < 0x1000_0000
    ensures Ea(s, p, Disp(i)) == Add64(s.regs[p], 8 * i)
  {}

  lemma ElemImm(W: World, p: Reg, i: nat, n: nat, s: State, k: nat, c: nat)
    requires Good16(s) && i < 0x1000_0000 && n <= INT32_MAX
    requires DataOk(W, Add64(s.regs[p], 8 * i))
    ensures var r := Run(W, [StoreImm(p, Disp(i), n)], s);
            r.Some? && Keeps(s, r.value, k, c) && r.value.regs == s.regs
            && r.value.mem == Store64(s.mem, Add64(s.regs[p], 8 * i), n)
  {
    hide Store64, Load64, Add64, Disp;
    ElemAddress(s, p, i);
    DataAccess(W, s, Add64(s.regs[p], 8 * i), n);
    RunOne(W, StoreImm(p, Disp(i), n), s);
    var s1 := s.(mem := Store64(s.mem, Add64(s.regs[p], 8 * i), n));
    KeepsSet(s, s1, RAX, k, c);
  }

  lemma ElemValue(W: World, ch: seq<Instr>, k: nat, j: nat, i: nat, s: State, v: Val, n: nat)
    requires k < 5 && j <= k && i < 0x1000_0000
    requires Done(W, ch, s, Scratch(j), v, k + 1, n)
    requires DataOk(W, Add64(s.regs[Saved(k)], 8 * i))
    ensures Done(W, ch + [Store(Saved(k), Disp(i), Scratch(j))], s, Scratch(j),
                 Val(v.v, Store64(v.mem, Add64(s.regs[Saved(k)], 8 * i), v.v)), k + 1, n)
  {
    hide Store64, Load64, Add64, Disp, Run;
    var s1 := Run(W, ch, s).value;
    var p, a := Saved(k), Add64(s.regs[Saved(k)], 8 * i);
    assert s1.regs[p] == s.regs[p];
    ElemAddress(s1, p, i);
    DataAccess(W, s1, a, v.v);
    var ins := Store(p, Disp(i), Scratch(j));
    assert Step(W, ins, s1) == Some(s1.(mem := Store64(s1.mem, a, v.v)));
    hide Step;
    FinishMem(W, ch, ins, s, Scratch(j), k + 1, n, Val(v.v, Store64(v.mem, a, v.v)));
  }
}
