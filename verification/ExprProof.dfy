/** Expression compilation preserves meaning. */
module ExprProof {
  import opened Words
  import opened Isa
  import opened Machine
  import opened Source
  import opened Select
  import opened ExprBasics
  import opened ExprCases
  import opened ExprMemory
  import opened ExprCalls

  /** The registers and limits the generator has suffice for e. */
  ghost predicate Fits(e: Expr, k: nat, j: nat) {
    k + Need(e) <= 5 && j <= k && CallsFit(e) && ArraysFit(e)
  }

  ghost predicate FitsAll(es: Exprs, k: nat, j: nat) {
    k + NeedAll(es) <= 5 && j <= k && CallsFitAll(es) && ArraysFitAll(es)
  }

  /** Whatever the state and the callees, if e has a meaning then its code runs
      without fault, leaves e's value in t and exactly e's memory, and keeps
      RSP, RBP, the stack at and above RSP, and every saved register but the
      Need(e) it picks itself. */
  lemma CodeCorrect(W: World, e: Expr, t: Reg, addr: bool, k: nat, j: nat, d: nat, s: State)
    requires Ready(W, s, d, Slots(e)) && Fits(e, k, j) && TargetOk(t, j)
    requires Eval(W, e, addr, s.mem).Some?
    ensures Done(W, Code(e, t, addr, k, j, d), s, t, Eval(W, e, addr, s.mem).value, k, Need(e))
    decreases e, 2
  {
    hide Run;
    match e
    case Num(_) => LeafCorrect(W, e, t, addr, k, j, s);
    case Str(_) => LeafCorrect(W, e, t, addr, k, j, s);
    case Cell(_) => LeafCorrect(W, e, t, addr, k, j, s);
    case Arr(_, _) => ArrCorrect(W, e, t, addr, k, j, d, s);
    case Index(_, _) => IndexCorrect(W, e, t, addr, k, j, d, s);
    case Assign(_, _) => AssignCorrect(W, e, t, addr, k, j, d, s);
    case AddAssign(_, _) => AddAssignCorrect(W, e, t, addr, k, j, d, s);
    case Bin(op, _, right) =>
      var a, b, m := BinCorrect(W, e, t, k, j, d, s);
      BinFinish(W, e, BinCode(e, t, k, j, d), t, k, j, s, a, b, m, Need(e));
    case Call(_, _) => CallCorrect(W, e, t, addr, k, j, d, s);
  }

  lemma LeafCorrect(W: World, e: Expr, t: Reg, addr: bool, k: nat, j: nat, s: State)
    requires Good16(s) && IsLeaf(e) && k <= 5 && j <= k && TargetOk(t, j)
    requires Eval(W, e, addr, s.mem).Some?
    ensures Done(W, LeafCode(e, t, addr), s, t, Eval(W, e, addr, s.mem).value, k, 0)
  {
    hide Run, LeafCode, Eval;
    PoolFacts(t, j);
    LeafRun(W, e, t, addr, s);
    KeepsSet(s, SetReg(s, t, Eval(W, e, addr, s.mem).value.v), t, k, 0);
  }

  /** Both operands of e and the operation, up to where the result is used. */
  lemma BinCorrect(W: World, e: Expr, t: Reg, k: nat, j: nat, d: nat, s: State) returns (a: u64, b: u64, m: Mem)
    requires e.Bin? && Ready(W, s, d, Slots(e)) && Fits(e, k, j) && TargetOk(t, j)
    requires Eval(W, e, false, s.mem).Some?
    ensures BinDone(W, BinCode(e, t, k, j, d), e, s, t, k, Need(e), a, b, m)
    ensures Eval(W, e, false, s.mem) == Some(Val(Apply(e.op, a, b), m))
    ensures var l := Eval(W, e.left, false, s.mem);
            l.Some? && l.value.v == a && Eval(W, e.right, false, l.value.mem) == Some(Val(b, m))
    decreases e, 0
  {
    hide Run, AluImmCode, LeafCode, AluRRCode, Mov;
    var l := Eval(W, e.left, false, s.mem).value;
    var r := Eval(W, e.right, false, l.mem).value;
    a, b, m := l.v, r.v, r.mem;
    var cl := Code(e.left, t, false, k, j, d);
    CodeCorrect(W, e.left, t, false, k, j, d, s);
    if SmallImm(e.right) {
      BinImm(W, e, cl, t, k, j, s, l, Need(e.left));
    } else if IsLeaf(e.right) {
      LeafEval(W, e.right, l.mem);
      BinLeaf(W, e, cl, t, k, j, s, l, b, Need(e.left));
    } else {
      assert NeedRight(e.right) == 1 + Need(e.right);
      HeldReady(W, cl, s, t, l, k, Need(e.left), d, Slots(e), Slots(e.right));
      CodeCorrect(W, e.right, t, false, k + 1, j, d, Held(W, cl, s, k, l.v));
      BinComplex(W, e, cl, Code(e.right, t, false, k + 1, j, d), t, k, j, s, l, r, Need(e.left), Need(e.right));
    }
  }

  lemma IndexCorrect(W: World, e: Expr, t: Reg, addr: bool, k: nat, j: nat, d: nat, s: State)
    requires e.Index? && Ready(W, s, d, Slots(e)) && Fits(e, k, j) && TargetOk(t, j)
    requires Eval(W, e, addr, s.mem).Some?
    ensures Done(W, Code(e, t, addr, k, j, d), s, t, Eval(W, e, addr, s.mem).value, k, Need(e))
    decreases e, 1
  {
    hide Run, LeafCode, Mov, Scaled, Load64;
    var Index(base, index) := e;
    var b := Eval(W, base, false, s.mem).value;
    var i := Eval(W, index, false, b.mem).value;
    var n := Need(e);
    var cb := Code(base, t, false, k, j, d);
    var ci := if SmallIndex(index) then (if index.n == 0 then [] else [AluImm(AddOp, t, 8 * index.n)])
              else if IsLeaf(index) then LeafCode(index, Scratch(j), false) + [LeaIdx8(t, t, Scratch(j))]
              else Mov(Saved(k), t) + Code(index, t, false, k + 1, j, d) + [LeaIdx8(t, Saved(k), t)];
    CodeCorrect(W, base, t, false, k, j, d, s);
    if SmallIndex(index) {
      IndexSmall(W, cb, t, k, j, s, b, index.n, n);
    } else if IsLeaf(index) {
      LeafEval(W, index, b.mem);
      IndexLeaf(W, cb, index, t, k, j, s, b, i.v, n);
    } else {
      assert NeedRight(index) == 1 + Need(index);
      HeldReady(W, cb, s, t, b, k, Need(base), d, Slots(e), Slots(index));
      CodeCorrect(W, index, t, false, k + 1, j, d, Held(W, cb, s, k, b.v));
      IndexComplex(W, cb, Code(index, t, false, k + 1, j, d), t, k, j, s, b, i, Need(base), Need(index));
    }
    var a := Val(Scaled(b.v, i.v), i.mem);
    assert Done(W, cb + ci, s, t, a, k, n);
    if addr {
      assert Code(e, t, addr, k, j, d) == cb + ci + [] == cb + ci;
    } else {
      LoadThrough(W, cb + ci, t, k, j, s, a, n);
    }
  }

  lemma AssignCorrect(W: World, e: Expr, t: Reg, addr: bool, k: nat, j: nat, d: nat, s: State)
    requires e.Assign? && Ready(W, s, d, Slots(e)) && Fits(e, k, j) && TargetOk(t, j)
    requires Eval(W, e, addr, s.mem).Some?
    ensures Done(W, Code(e, t, addr, k, j, d), s, t, Eval(W, e, addr, s.mem).value, k, Need(e))
    decreases e, 1
  {
    hide Run, LeafCode, Mov, Store64;
    var Assign(target, value) := e;
    var a := Eval(W, target, true, s.mem).value;
    var v := Eval(W, value, false, a.mem).value;
    if target.Cell? {
      CodeCorrect(W, value, t, false, k, j, d, s);
      AssignCell(W, Code(value, t, false, k, j, d), t, k, j, s, target.addr, v, Need(e));
    } else {
      var ct := Code(target, t, true, k, j, d);
      CodeCorrect(W, target, t, true, k, j, d, s);
      if IsLeaf(value) {
        LeafEval(W, value, a.mem);
        AssignLeaf(W, ct, value, t, k, j, s, a, v.v, Need(e));
      } else {
        assert NeedRight(value) == 1 + Need(value);
        HeldReady(W, ct, s, t, a, k, Need(target), d, Slots(e), Slots(value));
        CodeCorrect(W, value, t, false, k + 1, j, d, Held(W, ct, s, k, a.v));
        AssignComplex(W, ct, Code(value, t, false, k + 1, j, d), t, k, j, s, a, v, Need(target), Need(value));
      }
    }
  }

  lemma AddAssignCorrect(W: World, e: Expr, t: Reg, addr: bool, k: nat, j: nat, d: nat, s: State)
    requires e.AddAssign? && Ready(W, s, d, Slots(e)) && Fits(e, k, j) && TargetOk(t, j)
    requires Eval(W, e, addr, s.mem).Some?
    ensures Done(W, Code(e, t, addr, k, j, d), s, t, Eval(W, e, addr, s.mem).value, k, Need(e))
    decreases e, 1
  {
    hide Run, LeafCode, Mov, Store64, Load64, Add64;
    var AddAssign(target, value) := e;
    var a := Eval(W, target, true, s.mem).value;
    var v := Eval(W, value, false, a.mem).value;
    var ct := Code(target, t, true, k, j, d);
    CodeCorrect(W, target, t, true, k, j, d, s);
    if IsLeaf(value) {
      LeafEval(W, value, a.mem);
      AddAssignLeaf(W, ct, value, t, k, j, s, a, v.v, Need(e));
    } else {
      assert NeedRight(value) == 1 + Need(value);
      HeldReady(W, ct, s, t, a, k, Need(target), d, Slots(e), Slots(value));
      CodeCorrect(W, value, t, false, k + 1, j, d, Held(W, ct, s, k, a.v));
      AddAssignComplex(W, ct, Code(value, t, false, k + 1, j, d), t, k, j, s, a, v, Need(target), Need(value));
    }
  }

  // ------------------------------------------------------------ array literals

  lemma ArrCorrect(W: World, e: Expr, t: Reg, addr: bool, k: nat, j: nat, d: nat, s: State)
    requires e.Arr? && Ready(W, s, d, Slots(e)) && Fits(e, k, j) && TargetOk(t, j)
    requires Eval(W, e, addr, s.mem).Some?
    ensures Done(W, Code(e, t, addr, k, j, d), s, t, Eval(W, e, addr, s.mem).value, k, Need(e))
    decreases e, 1
  {
    var Arr(data, es) := e;
    var p, n := Saved(k), Need(e);
    var i1, ce := MovImm64(p, data), ElemsCode(es, 0, p, k + 1, j, d);
    var m := EvalElems(W, es, data, 0, s.mem).value;
    assert Eval(W, e, addr, s.mem).value == Val(data, m);
    assert Code(e, t, addr, k, j, d) == [i1] + ce + Mov(t, p);
    var s1 := SetReg(s, p, data);
    assert Step(W, i1, s) == Some(s1);
    hide Run, ElemsCode, EvalElems, Eval, Code, Step;
    RunOne(W, i1, s);
    KeepsSet(s, s1, p, k, n);
    ReadyKeeps(W, s, s1, d, Slots(e), SlotsAll(es), k, n);
    ElemsCorrect(W, es, 0, data, k, j, d, s1);
    Then(W, [i1], ce, s);
    var s2 := Run(W, ce, s1).value;
    KeepsTrans(s, s1, s2, k, n, k, n, k + 1, NeedAll(es));
    assert s2.regs[Saved(k)] == s1.regs[Saved(k)];
    ArrFinish(W, [i1] + ce, s, t, k, n, j, Val(data, m));
  }

  lemma ArrFinish(W: World, c: seq<Instr>, s: State, t: Reg, k: nat, n: nat, j: nat, v: Val)
    requires Good16(s) && Run(W, c, s).Some? && Keeps(s, Run(W, c, s).value, k, n)
    requires Run(W, c, s).value.regs[Saved(k)] == v.v && Run(W, c, s).value.mem == v.mem
    requires k < 5 && j <= k && TargetOk(t, j)
    ensures Done(W, c + Mov(t, Saved(k)), s, t, v, k, n)
  {
    hide Run, Step;
    PoolFacts(t, j);
    SavedFacts();
    MovStep(W, t, Saved(k), Run(W, c, s).value);
    Finish(W, c, MovRR(t, Saved(k)), s, t, k, n, j, v);
  }

  /** Code of one array element: an immediate store, or the value and a store. */
  function ElemCode(h: Expr, i: nat, k: nat, j: nat, d: nat): seq<Instr> {
    if SmallImm(h) then [StoreImm(Saved(k), Disp(i), h.n)]
    else Code(h, Scratch(j), false, k + 1, j + 1, d) + [Store(Saved(k), Disp(i), Scratch(j))]
  }

  lemma ElemCorrect(W: World, h: Expr, i: nat, k: nat, j: nat, d: nat, s: State)
    requires Ready(W, s, d, Slots(h)) && k < 5 && Fits(h, k + 1, j) && j <= k && i < 0x1000_0000
    requires Eval(W, h, false, s.mem).Some? && DataOk(W, Add64(s.regs[Saved(k)], 8 * i))
    ensures var r := Run(W, ElemCode(h, i, k, j, d), s);
            var v := Eval(W, h, false, s.mem).value;
            r.Some? && Keeps(s, r.value, k + 1, Need(h))
            && r.value.mem == Store64(v.mem, Add64(s.regs[Saved(k)], 8 * i), v.v)
    decreases h, 3
  {
    hide Run, Step, Store64, Add64, Disp;
    var v := Eval(W, h, false, s.mem).value;
    if SmallImm(h) {
      ElemImm(W, Saved(k), i, h.n, s, k + 1, Need(h));
    } else {
      PoolFacts(RAX, j);
      CodeCorrect(W, h, Scratch(j), false, k + 1, j + 1, d, s);
      ElemValue(W, Code(h, Scratch(j), false, k + 1, j + 1, d), k, j, i, s, v, Need(h));
    }
  }

  lemma ElemsCorrect(W: World, es: Exprs, i: nat, data: u64, k: nat, j: nat, d: nat, s: State)
    requires Ready(W, s, d, SlotsAll(es)) && k < 5 && FitsAll(es, k + 1, j) && j <= k
    requires s.regs[Saved(k)] == data && i + Len(es) <= 0x1000_0000
    requires EvalElems(W, es, data, i, s.mem).Some?
    ensures var r := Run(W, ElemsCode(es, i, Saved(k), k + 1, j, d), s);
            r.Some? && Keeps(s, r.value, k + 1, NeedAll(es))
            && r.value.mem == EvalElems(W, es, data, i, s.mem).value
    decreases es, 0
  {
    hide Run, Step, Store64, Add64, Eval, Code;
    match es
    case Nil =>
      EmptyRun(W, s);
    case Cons(h, tl) =>
      var n := NeedAll(es);
      var head, rest := ElemCode(h, i, k, j, d), ElemsCode(tl, i + 1, Saved(k), k + 1, j, d);
      assert ElemsCode(es, i, Saved(k), k + 1, j, d) == head + rest;
      ReadyLess(W, s, d, SlotsAll(es), Slots(h));
      ElemCorrect(W, h, i, k, j, d, s);
      var s1 := Run(W, head, s).value;
      assert s1.regs[Saved(k)] == data;
      ReadyKeeps(W, s, s1, d, SlotsAll(es), SlotsAll(tl), k + 1, Need(h));
      ElemsCorrect(W, tl, i + 1, data, k, j, d, s1);
      Then(W, head, rest, s);
      KeepsTrans(s, s1, Run(W, rest, s1).value, k + 1, n, k + 1, Need(h), k + 1, NeedAll(tl));
  }

  // --------------------------------------------------------------------- calls

  /** The complex arguments reach their registers through the stack. mf is the
      memory the leaf arguments will be read from. */
  lemma ArgsCorrect(W: World, es: Exprs, i: nat, k: nat, j: nat, d: nat, s: State, mf: Mem, vs: seq<u64>)
    requires Ready(W, s, d, SlotsArgs(es)) && FitsAll(es, k, j) && i + Len(es) <= 6
    requires EvalComplex(W, es, s.mem).Some?
    requires CallArgs(W, es, s.mem, mf) == Some(vs)
    ensures ComplexDone(W, PushArgs(es, k, j, d) + PopArgs(es, i), s, es, i, vs,
                        EvalComplex(W, es, s.mem).value, k, NeedAll(es))
    decreases es, 0
  {
    hide Run, Step, LeafVal, CallArgs;
    ArgsTail(W, es, s.mem, mf, vs);
    match es
    case Nil =>
      EmptyRun(W, s);
      assert PushArgs(es, k, j, d) + PopArgs(es, i) == [];
    case Cons(h, tl) =>
      if IsLeaf(h) {
        ArgsCorrect(W, tl, i + 1, k, j, d, s, mf, vs[1..]);
        hide ComplexDone;
        ComplexSkip(W, es, i, k, j, d, s, vs, EvalComplex(W, es, s.mem).value);
      } else {
        hide ComplexDone;
        var v := Eval(W, h, false, s.mem).value;
        CodeCorrect(W, h, RAX, false, k, j, d, s);
        var s1 := Run(W, Code(h, RAX, false, k, j, d), s).value;
        ReadyKeeps(W, s, s1, d, SlotsArgs(es), SlotsArgs(es), k, Need(h));
        var p := PushStep(W, s1, d, SlotsArgs(es));
        ReadyLess(W, p, d + 1, SlotsArgs(es) - 1, SlotsArgs(tl));
        ArgsCorrect(W, tl, i + 1, k, j, d + 1, p, mf, vs[1..]);
        ComplexStep(W, es, i, k, j, d, s, p, vs, v.mem, EvalComplex(W, es, s.mem).value);
      }
  }

  /** The values of the arguments behind the first. */
  lemma ArgsTail(W: World, es: Exprs, m: Mem, mf: Mem, vs: seq<u64>)
    requires CallArgs(W, es, m, mf) == Some(vs)
    ensures es.Nil? ==> vs == []
    ensures es.Cons? && IsLeaf(es.head) ==> vs != [] && CallArgs(W, es.tail, m, mf) == Some(vs[1..])
    ensures es.Cons? && !IsLeaf(es.head) ==>
              vs != [] && Eval(W, es.head, false, m).Some? && vs[0] == Eval(W, es.head, false, m).value.v
              && CallArgs(W, es.tail, Eval(W, es.head, false, m).value.mem, mf) == Some(vs[1..])
  {
    hide Eval, LeafVal;
  }

  lemma ReadyLess(W: World, s: State, d: nat, slots: nat, fewer: nat)
    requires Ready(W, s, d, slots) && fewer <= slots
    ensures Ready(W, s, d, fewer)
  {}

  /** Every argument in its register, whatever mix of leaves and trees. */
  lemma AllArgsCorrect(W: World, es: Exprs, k: nat, j: nat, d: nat, s: State, vs: seq<u64>)
    requires Ready(W, s, d, SlotsArgs(es)) && FitsAll(es, k, j) && Len(es) <= 6
    requires EvalComplex(W, es, s.mem).Some?
    requires CallArgs(W, es, s.mem, EvalComplex(W, es, s.mem).value) == Some(vs)
    ensures var r := Run(W, PushArgs(es, k, j, d) + PopArgs(es, 0) + LeafArgs(es, 0), s);
            r.Some? && ArgsIn(r.value, 0, vs) && Keeps(s, r.value, k, NeedAll(es))
            && r.value.mem == EvalComplex(W, es, s.mem).value
    decreases es, 1
  {
    hide Run, Step, CallArgs, EvalComplex;
    var mf := EvalComplex(W, es, s.mem).value;
    ArgsCorrect(W, es, 0, k, j, d, s, mf, vs);
    var c := PushArgs(es, k, j, d) + PopArgs(es, 0);
    var s1 := Run(W, c, s).value;
    Then(W, c, LeafArgs(es, 0), s);
    ArgsLoadedFrom(W, es, s.mem, s1, vs, k, NeedAll(es));
    KeepsTrans(s, s1, Run(W, LeafArgs(es, 0), s1).value, k, NeedAll(es), k, NeedAll(es), k, NeedAll(es));
  }

  lemma ArgsLoadedFrom(W: World, es: Exprs, m: Mem, s1: State, vs: seq<u64>, k: nat, n: nat)
    requires Good16(s1) && Len(es) <= 6 && CallArgs(W, es, m, s1.mem) == Some(vs)
    requires ComplexIn(s1, es, 0, vs)
    ensures var r := Run(W, LeafArgs(es, 0), s1);
            r.Some? && ArgsIn(r.value, 0, vs) && r.value.mem == s1.mem && Keeps(s1, r.value, k, n)
  {
    hide Run;
    ArgsLoaded(W, es, s1, m, vs, k, n);
  }

  /** What Eval says a call does, in the order the code does it. */
  lemma CallEval(W: World, e: Expr, addr: bool, m: Mem) returns (f: u64, m1: Mem, m2: Mem, vs: seq<u64>)
    requires e.Call? && Eval(W, e, addr, m).Some?
    ensures if IsLeaf(e.callee) then m1 == m && LeafVal(W, e.callee, m2) == Some(f)
            else Eval(W, e.callee, false, m) == Some(Val(f, m1))
    ensures EvalComplex(W, e.args, m1) == Some(m2)
    ensures CallArgs(W, e.args, m1, m2) == Some(vs) && W.arity(f) <= |vs| == Len(e.args)
    ensures var given := vs[..W.arity(f)];
            Eval(W, e, addr, m) == Some(Val(W.result(f, given, m2), W.effect(f, given, m2)))
  {
    var c: Option<Val> := if IsLeaf(e.callee) then Some(Val(0, m)) else Eval(W, e.callee, false, m);
    m1 := c.value.mem;
    m2 := EvalComplex(W, e.args, m1).value;
    f := (if IsLeaf(e.callee) then LeafVal(W, e.callee, m2) else Some(c.value.v)).value;
    vs := CallArgs(W, e.args, m1, m2).value;
  }

  lemma CallCorrect(W: World, e: Expr, t: Reg, addr: bool, k: nat, j: nat, d: nat, s: State)
    requires e.Call? && Ready(W, s, d, Slots(e)) && Fits(e, k, j) && TargetOk(t, j)
    requires Eval(W, e, addr, s.mem).Some?
    ensures Done(W, Code(e, t, addr, k, j, d), s, t, Eval(W, e, addr, s.mem).value, k, Need(e))
    decreases e, 1
  {
    hide Run, Step, Eval, EvalComplex, CallArgs, LeafVal, PushArgs, PopArgs, LeafArgs, LeafCode, CallCode;
    var Call(c, es) := e;
    var f, m1, m2, vs := CallEval(W, e, addr, s.mem);
    var given := vs[..W.arity(f)];
    var v := Val(W.result(f, given, m2), W.effect(f, given, m2));
    var loaded := CallLoad(e, k, j, d);
    if IsLeaf(c) {
      LeafCallee(W, e, k, j, d, s, f, m2, vs);
    } else {
      CodeCorrect(W, c, RAX, false, k, j, d, s);
      TreeCallee(W, e, k, j, d, s, f, m1, m2, vs);
    }
    var s1 := Run(W, loaded, s).value;
    ReadyKeeps(W, s, s1, d, Slots(e), 2, k, Need(e));
    CallCodeRun(W, s1, d, f, vs);
    Then(W, loaded, CallCode(d), s);
    var s2 := Run(W, CallCode(d), s1).value;
    KeepsTrans(s, s1, s2, k, Need(e), k, Need(e), k, Need(e)) by {
      KeepsLess(s1, s2, k, Need(e));
    }
    CallLoadCode(e, t, addr, k, j, d);
    MovFromRax(W, loaded + CallCode(d), s, t, k, Need(e), j, v);
  }

  lemma KeepsLess(s: State, s': State, k: nat, n: nat)
    requires Keeps(s, s', 5, 0)
    ensures Keeps(s, s', k, n)
  {}

  lemma MovFromRax(W: World, c: seq<Instr>, s: State, t: Reg, k: nat, n: nat, j: nat, v: Val)
    requires Done(W, c, s, RAX, v, k, n) && k <= 5 && j <= k && TargetOk(t, j)
    ensures Done(W, c + Mov(t, RAX), s, t, v, k, n)
  {
    hide Run, Step;
    if t == RAX {
      assert c + Mov(t, RAX) == c;
    } else {
      MovStep(W, t, RAX, Run(W, c, s).value);
      Finish(W, c, MovRR(t, RAX), s, t, k, n, j, v);
    }
  }

  /** The code of a call up to the point where everything is loaded. */
  ghost function CallLoad(e: Expr, k: nat, j: nat, d: nat): seq<Instr>
    requires e.Call?
  {
    if IsLeaf(e.callee) then
      (PushArgs(e.args, k, j, d) + PopArgs(e.args, 0) + LeafArgs(e.args, 0)) + LeafCode(e.callee, R11, false)
    else
      Code(e.callee, RAX, false, k, j, d) + [Push(RAX)]
      + (PushArgs(e.args, k, j, d + 1) + PopArgs(e.args, 0) + LeafArgs(e.args, 0)) + [Pop(R11)]
  }

  lemma CallLoadCode(e: Expr, t: Reg, addr: bool, k: nat, j: nat, d: nat)
    requires e.Call?
    ensures Code(e, t, addr, k, j, d) == CallLoad(e, k, j, d) + CallCode(d) + Mov(t, RAX)
  {
    hide PushArgs, PopArgs, LeafArgs, LeafCode, CallCode, Mov;
    var Call(c, es) := e;
    var d' := if IsLeaf(c) then d else d + 1;
    var head := if IsLeaf(c) then [] else Code(c, RAX, false, k, j, d) + [Push(RAX)];
    var args := PushArgs(es, k, j, d') + PopArgs(es, 0) + LeafArgs(es, 0);
    var last := if IsLeaf(c) then LeafCode(c, R11, false) else [Pop(R11)];
    assert head + PushArgs(es, k, j, d') + PopArgs(es, 0) + LeafArgs(es, 0) == head + args;
    assert CallLoad(e, k, j, d) == head + args + last;
  }

  /** A leaf callee is loaded last, straight into R11. */
  lemma LeafCallee(W: World, e: Expr, k: nat, j: nat, d: nat, s: State, f: u64, m2: Mem, vs: seq<u64>)
    requires e.Call? && IsLeaf(e.callee) && Ready(W, s, d, Slots(e)) && Fits(e, k, j)
    requires EvalComplex(W, e.args, s.mem) == Some(m2) && CallArgs(W, e.args, s.mem, m2) == Some(vs)
    requires LeafVal(W, e.callee, m2) == Some(f)
    ensures var r := Run(W, CallLoad(e, k, j, d), s);
            r.Some? && r.value.regs[R11] == f && ArgsIn(r.value, 0, vs) && r.value.mem == m2
            && Keeps(s, r.value, k, Need(e))
    decreases e, 0
  {
    hide Run, Step, Eval, EvalComplex, CallArgs, LeafVal, PushArgs, PopArgs, LeafArgs, LeafCode;
    ReadyLess(W, s, d, Slots(e), SlotsArgs(e.args));
    AllArgsCorrect(W, e.args, k, j, d, s, vs);
    var c := PushArgs(e.args, k, j, d) + PopArgs(e.args, 0) + LeafArgs(e.args, 0);
    var s1 := Run(W, c, s).value;
    LeafEval(W, e.callee, m2);
    LeafRun(W, e.callee, R11, false, s1);
    Then(W, c, LeafCode(e.callee, R11, false), s);
    R11Set(s, s1, SetReg(s1, R11, f), vs, k, NeedAll(e.args), Need(e));
  }

  lemma R11Set(s: State, s1: State, s2: State, vs: seq<u64>, k: nat, n: nat, n': nat)
    requires Keeps(s, s1, k, n) && ArgsIn(s1, 0, vs) && |vs| <= 6 && n <= n'
    requires Good16(s2) && s2.stk == s1.stk && forall q: Reg :: q != R11 ==> s2.regs[q] == s1.regs[q]
    ensures Keeps(s, s2, k, n') && ArgsIn(s2, 0, vs)
  {
    ArgRegFacts();
    KeepsSet(s1, s2, R11, k, n);
    KeepsTrans(s, s1, s2, k, n', k, n, k, n);
    forall x | 0 <= x < |vs|
      ensures s2.regs[ArgReg(0 + x)] == vs[x]
    {
      assert s1.regs[ArgReg(0 + x)] == vs[x];
    }
  }

  /** A complex callee is evaluated first and waits on the stack. */
  lemma TreeCallee(W: World, e: Expr, k: nat, j: nat, d: nat, s: State, f: u64, m1: Mem, m2: Mem, vs: seq<u64>)
    requires e.Call? && !IsLeaf(e.callee) && Ready(W, s, d, Slots(e)) && Fits(e, k, j)
    requires Done(W, Code(e.callee, RAX, false, k, j, d), s, RAX, Val(f, m1), k, Need(e.callee))
    requires EvalComplex(W, e.args, m1) == Some(m2) && CallArgs(W, e.args, m1, m2) == Some(vs)
    ensures var r := Run(W, CallLoad(e, k, j, d), s);
            r.Some? && r.value.regs[R11] == f && ArgsIn(r.value, 0, vs) && r.value.mem == m2
            && Keeps(s, r.value, k, Need(e))
    decreases e, 0
  {
    hide Run, Step, EvalComplex, CallArgs, PushArgs, PopArgs, LeafArgs, Code;
    var n, slots := Need(e), Slots(e);
    var cc := Code(e.callee, RAX, false, k, j, d);
    var args := PushArgs(e.args, k, j, d + 1) + PopArgs(e.args, 0) + LeafArgs(e.args, 0);
    var s1 := Run(W, cc, s).value;
    ReadyKeeps(W, s, s1, d, slots, slots, k, Need(e.callee));
    var p := PushStep(W, s1, d, slots);
    ReadyLess(W, p, d + 1, slots - 1, SlotsArgs(e.args));
    AllArgsCorrect(W, e.args, k, j, d + 1, p, vs);
    var q := Run(W, args, p).value;
    var s2 := PopStep(W, s1, p, q, R11, d, slots, k, NeedAll(e.args));
    ThenOne(W, cc, Push(RAX), s);
    Then(W, cc + [Push(RAX)], args, s);
    ThenOne(W, cc + [Push(RAX)] + args, Pop(R11), s);
    KeepsTrans(s, s1, s2, k, n, k, Need(e.callee), k, NeedAll(e.args));
    ArgRegFacts();
    forall x | 0 <= x < |vs|
      ensures s2.regs[ArgReg(0 + x)] == vs[x]
    {
      assert q.regs[ArgReg(0 + x)] == vs[x];
    }
  }
}
