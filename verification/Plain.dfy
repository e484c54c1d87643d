/** Expression code holds well-formed instructions and no branches. */
module Plain {
  import opened Words
  import opened Isa
  import opened IsaRoundTrip
  import opened Machine
  import opened Source
  import opened Select
  import opened ExprCases

  predicate PlainInstr(i: Instr) { Wf(i) && !i.Jmp? && !i.Jcc? && !i.Ret? }

  predicate AllPlain(code: seq<Instr>) {
    forall n :: 0 <= n < |code| ==> PlainInstr(code[n])
  }

  lemma Join(a: seq<Instr>, b: seq<Instr>)
    requires AllPlain(a) && AllPlain(b)
    ensures AllPlain(a + b)
  {}

  lemma Join3(a: seq<Instr>, b: seq<Instr>, c: seq<Instr>)
    requires AllPlain(a) && AllPlain(b) && AllPlain(c)
    ensures AllPlain(a + b + c)
  {}

  lemma LeafPlain(e: Expr, t: Reg, addr: bool)
    requires IsLeaf(e)
    ensures AllPlain(LeafCode(e, t, addr))
  {}

  lemma AluImmPlain(op: BinOp, t: Reg, n: nat)
    requires n <= INT32_MAX
    ensures AllPlain(AluImmCode(op, t, n))
  {
    Log2Small(n);
    hide Log2, Pow2;
  }

  lemma CodePlain(e: Expr, t: Reg, addr: bool, k: nat, j: nat, d: nat)
    requires t != RSP
    ensures AllPlain(Code(e, t, addr, k, j, d))
    decreases e, 1
  {
    hide AllPlain, PlainInstr, BinCode, PushArgs, PopArgs, LeafArgs, ElemsCode, LeafCode;
    match e
    case Num(_) => LeafPlain(e, t, addr);
    case Str(_) => LeafPlain(e, t, addr);
    case Cell(_) => LeafPlain(e, t, addr);
    case Arr(data, es) =>
      ElemsPlain(es, 0, Saved(k), k + 1, j, d);
      SmallPlain(t, Saved(k), data, 0);
      Join3([MovImm64(Saved(k), data)], ElemsCode(es, 0, Saved(k), k + 1, j, d), Mov(t, Saved(k)));
    case Index(_, _) => IndexPlain(e, t, addr, k, j, d);
    case Assign(_, _) => AssignPlain(e, t, addr, k, j, d);
    case AddAssign(_, _) => AddAssignPlain(e, t, addr, k, j, d);
    case Bin(op, _, r) =>
      BinPlain(e, t, k, j, d);
      SmallPlain(t, BinReg(r, t, k), 0, CompareCC(op));
      Join(BinCode(e, t, k, j, d),
           if IsCompare(op) then [SetCC(CompareCC(op), t), Movzx8(t, t)] else Mov(t, BinReg(r, t, k)));
    case Call(_, _) => CallPlain(e, t, addr, k, j, d);
  }

  /** The short pieces that hold a fixed number of instructions. */
  lemma SmallPlain(t: Reg, r: Reg, imm: u64, cc: int)
    requires t != RSP && 0 <= cc < 16
    ensures AllPlain(Mov(t, r)) && AllPlain([MovImm64(r, imm)]) && AllPlain([SetCC(cc, t), Movzx8(t, t)])
    ensures AllPlain([Load(t, t, 0)]) && AllPlain([LeaIdx8(t, r, t)]) && AllPlain([]) && AllPlain([Push(t)])
    ensures AllPlain([Store(r, 0, t)]) && AllPlain([StoreRaxAbs(imm)]) && AllPlain([MovImm64(r, imm), Store(r, 0, t)])
    ensures AllPlain([Store(t, 0, r)]) && AllPlain([AddMem(t, 0, r), Load(t, t, 0)])
    ensures AllPlain([AddMem(r, 0, t), Load(t, r, 0)]) && AllPlain([Pop(t)]) && AllPlain([TestRR(t, t)])
    ensures AllPlain(Mov(r, t))
  {}

  lemma IndexPlain(e: Expr, t: Reg, addr: bool, k: nat, j: nat, d: nat)
    requires e.Index? && t != RSP
    ensures AllPlain(Code(e, t, addr, k, j, d))
    decreases e, 0
  {
    hide AllPlain, PlainInstr, LeafCode, Mov;
    var Index(b, i) := e;
    CodePlain(b, t, false, k, j, d);
    SmallPlain(t, Saved(k), 0, 0);
    var ci := if SmallIndex(i) then (if i.n == 0 then [] else [AluImm(AddOp, t, 8 * i.n)])
              else if IsLeaf(i) then LeafCode(i, Scratch(j), false) + [LeaIdx8(t, t, Scratch(j))]
              else Mov(Saved(k), t) + Code(i, t, false, k + 1, j, d) + [LeaIdx8(t, Saved(k), t)];
    if SmallIndex(i) {
      AddPlain(t, 8 * i.n);
    } else if IsLeaf(i) {
      LeafPlain(i, Scratch(j), false);
      ScratchLea(t, j);
      Join(LeafCode(i, Scratch(j), false), [LeaIdx8(t, t, Scratch(j))]);
    } else {
      CodePlain(i, t, false, k + 1, j, d);
      Join3(Mov(Saved(k), t), Code(i, t, false, k + 1, j, d), [LeaIdx8(t, Saved(k), t)]);
    }
    Join3(Code(b, t, false, k, j, d), ci, if addr then [] else [Load(t, t, 0)]);
  }

  lemma AddPlain(t: Reg, n: nat)
    requires n <= INT32_MAX
    ensures AllPlain([AluImm(AddOp, t, n)])
  {}

  lemma ScratchLea(t: Reg, j: nat)
    ensures AllPlain([LeaIdx8(t, t, Scratch(j))]) && Scratch(j) != RSP && Saved(j) != RSP
  {}

  lemma AssignPlain(e: Expr, t: Reg, addr: bool, k: nat, j: nat, d: nat)
    requires e.Assign? && t != RSP
    ensures AllPlain(Code(e, t, addr, k, j, d))
    decreases e, 0
  {
    hide AllPlain, PlainInstr, LeafCode, Mov;
    var Assign(target, v) := e;
    if target.Cell? {
      SmallPlain(t, Scratch(j), target.addr, 0);
      CodePlain(v, t, false, k, j, d);
      Join(Code(v, t, false, k, j, d),
           if t == RAX then [StoreRaxAbs(target.addr)]
           else [MovImm64(Scratch(j), target.addr), Store(Scratch(j), 0, t)]);
    } else {
      CodePlain(target, t, true, k, j, d);
      if IsLeaf(v) {
        SmallPlain(t, Scratch(j), 0, 0);
        LeafPlain(v, Scratch(j), false);
        Join3(LeafCode(v, Scratch(j), false), [Store(t, 0, Scratch(j))], Mov(t, Scratch(j)));
        Join(Code(target, t, true, k, j, d),
             LeafCode(v, Scratch(j), false) + [Store(t, 0, Scratch(j))] + Mov(t, Scratch(j)));
      } else {
        SmallPlain(t, Saved(k), 0, 0);
        CodePlain(v, t, false, k + 1, j, d);
        Join3(Mov(Saved(k), t), Code(v, t, false, k + 1, j, d), [Store(Saved(k), 0, t)]);
        Join(Code(target, t, true, k, j, d),
             Mov(Saved(k), t) + Code(v, t, false, k + 1, j, d) + [Store(Saved(k), 0, t)]);
      }
    }
  }

  lemma AddAssignPlain(e: Expr, t: Reg, addr: bool, k: nat, j: nat, d: nat)
    requires e.AddAssign? && t != RSP
    ensures AllPlain(Code(e, t, addr, k, j, d))
    decreases e, 0
  {
    hide AllPlain, PlainInstr, LeafCode, Mov;
    var AddAssign(target, v) := e;
    CodePlain(target, t, true, k, j, d);
    if IsLeaf(v) {
      SmallPlain(t, Scratch(j), 0, 0);
      LeafPlain(v, Scratch(j), false);
      Join(LeafCode(v, Scratch(j), false), [AddMem(t, 0, Scratch(j)), Load(t, t, 0)]);
      Join(Code(target, t, true, k, j, d),
           LeafCode(v, Scratch(j), false) + [AddMem(t, 0, Scratch(j)), Load(t, t, 0)]);
    } else {
      SmallPlain(t, Saved(k), 0, 0);
      CodePlain(v, t, false, k + 1, j, d);
      Join3(Mov(Saved(k), t), Code(v, t, false, k + 1, j, d), [AddMem(Saved(k), 0, t), Load(t, Saved(k), 0)]);
      Join(Code(target, t, true, k, j, d),
           Mov(Saved(k), t) + Code(v, t, false, k + 1, j, d) + [AddMem(Saved(k), 0, t), Load(t, Saved(k), 0)]);
    }
  }

  lemma AluRRPlain(op: BinOp, a: Reg, b: Reg)
    ensures AllPlain([AluRRCode(op, a, b)])
  {}

  lemma BinPlain(e: Expr, t: Reg, k: nat, j: nat, d: nat)
    requires e.Bin? && t != RSP
    ensures AllPlain(BinCode(e, t, k, j, d))
    decreases e, 0
  {
    hide AllPlain, PlainInstr, LeafCode, Mov, AluImmCode, AluRRCode;
    var Bin(op, l, r) := e;
    CodePlain(l, t, false, k, j, d);
    var cl := Code(l, t, false, k, j, d);
    if SmallImm(r) {
      AluImmPlain(op, t, r.n);
      Join(cl, AluImmCode(op, t, r.n));
    } else if IsLeaf(r) {
      LeafPlain(r, Scratch(j), false);
      AluRRPlain(op, t, Scratch(j));
      Join(LeafCode(r, Scratch(j), false), [AluRRCode(op, t, Scratch(j))]);
      Join(cl, LeafCode(r, Scratch(j), false) + [AluRRCode(op, t, Scratch(j))]);
    } else {
      var cr := Code(r, t, false, k + 1, j, d);
      CodePlain(r, t, false, k + 1, j, d);
      SmallPlain(t, Saved(k), 0, 0);
      AluRRPlain(op, Saved(k), t);
      Join3(Mov(Saved(k), t), cr, [AluRRCode(op, Saved(k), t)]);
      Join(cl, Mov(Saved(k), t) + cr + [AluRRCode(op, Saved(k), t)]);
    }
  }

  lemma ElemsPlain(es: Exprs, i: nat, p: Reg, k: nat, j: nat, d: nat)
    ensures AllPlain(ElemsCode(es, i, p, k, j, d))
    decreases es, 0
  {
    hide AllPlain, PlainInstr;
    match es
    case Nil => SmallPlain(RAX, p, 0, 0);
    case Cons(h, t) =>
      ElemsPlain(t, i + 1, p, k, j, d);
      ElemStores(p, i, j, if SmallImm(h) then h.n else 0);
      ScratchLea(RAX, j);
      var rest := ElemsCode(t, i + 1, p, k, j, d);
      if SmallImm(h) {
        Join([StoreImm(p, Disp(i), h.n)], rest);
      } else {
        CodePlain(h, Scratch(j), false, k, j + 1, d);
        Join3(Code(h, Scratch(j), false, k, j + 1, d), [Store(p, Disp(i), Scratch(j))], rest);
      }
  }

  lemma ElemStores(p: Reg, i: nat, j: nat, n: nat)
    requires n <= INT32_MAX
    ensures AllPlain([StoreImm(p, Disp(i), n)]) && AllPlain([Store(p, Disp(i), Scratch(j))])
  {}

  lemma ArgRegNotRsp(i: nat)
    ensures ArgReg(i) != RSP
  {}

  lemma PushArgsPlain(es: Exprs, k: nat, j: nat, d: nat)
    ensures AllPlain(PushArgs(es, k, j, d))
    decreases es, 0
  {
    hide AllPlain, PlainInstr;
    SmallPlain(RAX, RAX, 0, 0);
    match es
    case Nil =>
    case Cons(h, t) =>
      if IsLeaf(h) {
        PushArgsPlain(t, k, j, d);
      } else {
        CodePlain(h, RAX, false, k, j, d);
        PushArgsPlain(t, k, j, d + 1);
        Join3(Code(h, RAX, false, k, j, d), [Push(RAX)], PushArgs(t, k, j, d + 1));
      }
  }

  lemma {:induction false} OtherArgsPlain(es: Exprs, i: nat)
    ensures AllPlain(PopArgs(es, i)) && AllPlain(LeafArgs(es, i))
  {
    hide AllPlain, PlainInstr, LeafCode;
    SmallPlain(RAX, RAX, 0, 0);
    match es
    case Nil =>
    case Cons(h, t) =>
      OtherArgsPlain(t, i + 1);
      ArgRegNotRsp(i);
      SmallPlain(ArgReg(i), RAX, 0, 0);
      Join(PopArgs(t, i + 1), if IsLeaf(h) then [] else [Pop(ArgReg(i))]);
      if IsLeaf(h) { LeafPlain(h, ArgReg(i), false); }
      Join(if IsLeaf(h) then LeafCode(h, ArgReg(i), false) else [], LeafArgs(t, i + 1));
  }

  lemma CallCodePlain(d: nat)
    ensures AllPlain(CallCode(d))
  {}

  lemma CallPlain(e: Expr, t: Reg, addr: bool, k: nat, j: nat, d: nat)
    requires e.Call? && t != RSP
    ensures AllPlain(Code(e, t, addr, k, j, d))
    decreases e, 0
  {
    hide AllPlain, PlainInstr, LeafCode, PushArgs, PopArgs, LeafArgs, CallCode, Mov;
    var Call(c, es) := e;
    var d' := if IsLeaf(c) then d else d + 1;
    SmallPlain(RAX, RAX, 0, 0);
    SmallPlain(R11, RAX, 0, 0);
    SmallPlain(t, RAX, 0, 0);
    var head := if IsLeaf(c) then [] else Code(c, RAX, false, k, j, d) + [Push(RAX)];
    var last := if IsLeaf(c) then LeafCode(c, R11, false) else [Pop(R11)];
    if IsLeaf(c) {
      LeafPlain(c, R11, false);
    } else {
      CodePlain(c, RAX, false, k, j, d);
      Join(Code(c, RAX, false, k, j, d), [Push(RAX)]);
    }
    PushArgsPlain(es, k, j, d');
    OtherArgsPlain(es, 0);
    CallCodePlain(d);
    Join3(head, PushArgs(es, k, j, d'), PopArgs(es, 0));
    Join3(head + PushArgs(es, k, j, d') + PopArgs(es, 0), LeafArgs(es, 0), last);
    Join3(head + PushArgs(es, k, j, d') + PopArgs(es, 0) + LeafArgs(es, 0) + last, CallCode(d), Mov(t, RAX));
  }

  lemma CondPlain(c: Expr)
    ensures AllPlain(CondCode(c))
  {
    hide AllPlain, PlainInstr;
    if c.Bin? && IsCompare(c.op) {
      BinPlain(c, RAX, 0, 0, 0);
    } else {
      CodePlain(c, RAX, false, 0, 0, 0);
      SmallPlain(RAX, RAX, 0, 0);
      Join(Code(c, RAX, false, 0, 0, 0), [TestRR(RAX, RAX)]);
    }
  }
}
