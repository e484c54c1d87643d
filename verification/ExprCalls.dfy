/** Calls: complex arguments go through the stack, leaves straight into their
    registers, and the callee into R11. */
module ExprCalls {
  import opened Words
  import opened Isa
  import opened Machine
  import opened Source
  import opened Select
  import opened ExprBasics

  function Nth(es: Exprs, n: nat): Expr
    requires n < Len(es)
  {
    if n == 0 then es.head else Nth(es.tail, n - 1)
  }

  /** The registers that leaf arguments are loaded into. */
  function LeafRegs(es: Exprs, i: nat): set<Reg> {
    match es
    case Nil => {}
    case Cons(h, t) => (if IsLeaf(h) then {ArgReg(i)} else {}) + LeafRegs(t, i + 1)
  }

  /** The complex arguments are in their registers. */
  ghost predicate ComplexIn(s: State, es: Exprs, i: nat, vs: seq<u64>)
    requires Good16(s) && |vs| == Len(es)
  {
    forall n :: 0 <= n < Len(es) && !IsLeaf(Nth(es, n)) ==> s.regs[ArgReg(i + n)] == vs[n]
  }

  /** All arguments are in their registers. */
  ghost predicate ArgsIn(s: State, i: nat, vs: seq<u64>)
    requires Good16(s)
  {
    forall n :: 0 <= n < |vs| ==> s.regs[ArgReg(i + n)] == vs[n]
  }

  lemma ArgRegFacts()
    ensures forall i :: 0 <= i < 6 ==> Volatile(ArgReg(i)) && ArgReg(i) != RAX && ArgReg(i) != R11
    ensures forall i, i' :: 0 <= i < i' < 6 ==> ArgReg(i) != ArgReg(i')
  {}

  // ------------------------------------------------------------- push and pop

  /** A push saves RAX in the slot below RSP. */
  lemma PushStep(W: World, s: State, d: nat, slots: nat) returns (p: State)
    requires Ready(W, s, d, slots) && slots >= 1
    ensures Step(W, Push(RAX), s) == Some(p)
    ensures Ready(W, p, d + 1, slots - 1) && p.mem == s.mem
    ensures p.regs == s.regs[RSP := s.regs[RSP] - 8]
    ensures p.stk == s.stk[s.regs[RSP] - 8 := s.regs[RAX]]
  {
    p := SetReg(s, RSP, s.regs[RSP] - 8).(stk := s.stk[s.regs[RSP] - 8 := s.regs[RAX]]);
  }

  lemma PopOne(W: World, q: State, r: Reg)
    requires Good16(q) && InStack(W, q.regs[RSP])
    ensures var a := q.regs[RSP];
            Step(W, Pop(r), q) == Some(SetReg(SetReg(q, RSP, Add64(a, 8)), r, Slot(q.stk, a)))
  {
    hide CallStep, AluStep;
  }

  /** Between a push and its pop only slots below the pushed one may change, so
      the pop gets the pushed value and the stack is as before. */
  lemma PopStep(W: World, s: State, p: State, q: State, r: Reg, d: nat, slots: nat, k: nat, n: nat) returns (s': State)
    requires Ready(W, s, d, slots) && slots >= 1
    requires Good16(p) && p.regs == s.regs[RSP := s.regs[RSP] - 8]
    requires p.stk == s.stk[s.regs[RSP] - 8 := s.regs[RAX]]
    requires Keeps(p, q, k, n) && Volatile(r)
    ensures Step(W, Pop(r), q) == Some(s')
    ensures s'.regs == q.regs[RSP := s.regs[RSP]][r := s.regs[RAX]]
    ensures s'.mem == q.mem && Keeps(s, s', k, n)
  {
    hide Step;
    SavedFacts();
    var a := q.regs[RSP];
    assert a == s.regs[RSP] - 8;
    assert Slot(q.stk, a) == Slot(p.stk, a) == s.regs[RAX];
    assert InStack(W, a);
    PopOne(W, q, r);
    s' := SetReg(SetReg(q, RSP, s.regs[RSP]), r, s.regs[RAX]);
    assert Add64(a, 8) == s.regs[RSP];
    forall x | x >= s.regs[RSP]
      ensures Slot(s'.stk, x) == Slot(s.stk, x)
    {
      assert Slot(q.stk, x) == Slot(p.stk, x);
    }
  }

  // ----------------------------------------------------------- leaf arguments

  lemma {:induction false} LeafRegsVolatile(es: Exprs, i: nat)
    requires i + Len(es) <= 6
    ensures forall q :: q in LeafRegs(es, i) ==> Volatile(q)
    ensures forall x :: 0 <= x < i ==> ArgReg(x) !in LeafRegs(es, i)
    ensures RAX !in LeafRegs(es, i) && R11 !in LeafRegs(es, i)
  {
    ArgRegFacts();
    match es
    case Nil =>
    case Cons(h, t) => LeafRegsVolatile(t, i + 1);
  }

  lemma {:induction false} ComplexNotLeafReg(es: Exprs, i: nat, n: nat)
    requires i + Len(es) <= 6 && n < Len(es) && !IsLeaf(Nth(es, n))
    ensures ArgReg(i + n) !in LeafRegs(es, i)
  {
    ArgRegFacts();
    if n == 0 {
      LeafRegsVolatile(es.tail, i + 1);
    } else {
      ComplexNotLeafReg(es.tail, i + 1, n - 1);
    }
  }

  /** From `s` to `r` only the registers of leaf arguments changed, and those
      hold their arguments. */
  ghost predicate LeavesIn(s: State, r: State, es: Exprs, i: nat, vs: seq<u64>)
    requires Good16(s) && Good16(r) && |vs| == Len(es) && i + Len(es) <= 6
  {
    && r.stk == s.stk && r.mem == s.mem
    && (forall q: Reg :: q !in LeafRegs(es, i) ==> r.regs[q] == s.regs[q])
    && (forall n :: 0 <= n < Len(es) && IsLeaf(Nth(es, n)) ==> r.regs[ArgReg(i + n)] == vs[n])
  }

  /** Loading the leaf arguments changes nothing but their registers. */
  lemma {:induction false} LeafArgsRun(W: World, es: Exprs, i: nat, s: State, m: Mem, vs: seq<u64>)
    requires Good16(s) && i + Len(es) <= 6
    requires CallArgs(W, es, m, s.mem) == Some(vs)
    ensures var r := Run(W, LeafArgs(es, i), s);
            r.Some? && LeavesIn(s, r.value, es, i, vs)
    decreases es
  {
    hide Step, LeafCode, Eval, Run, LeafVal, LeavesIn, LeafRegs;
    match es
    case Nil =>
      EmptyRun(W, s);
      NoLeaves(s, i);
    case Cons(h, t) =>
      var m1 := if IsLeaf(h) then m else Eval(W, h, false, m).value.mem;
      assert CallArgs(W, t, m1, s.mem) == Some(vs[1..]);
      if IsLeaf(h) {
        var q := SetReg(s, ArgReg(i), vs[0]);
        LeafArgsRun(W, t, i + 1, q, m1, vs[1..]);
        LeafEval(W, h, s.mem);
        LeafRun(W, h, ArgReg(i), false, s);
        Then(W, LeafCode(h, ArgReg(i), false), LeafArgs(t, i + 1), s);
        LeafFirst(s, q, Run(W, LeafArgs(es, i), s).value, es, i, vs);
      } else {
        LeafArgsRun(W, t, i + 1, s, m1, vs[1..]);
        assert LeafArgs(es, i) == LeafArgs(t, i + 1);
        LeavesLater(s, Run(W, LeafArgs(es, i), s).value, es, i, vs);
      }
  }

  lemma NoLeaves(s: State, i: nat)
    requires Good16(s) && i <= 6
    ensures LeavesIn(s, s, Nil, i, [])
  {}

  lemma LeafFirst(s: State, q: State, r: State, es: Exprs, i: nat, vs: seq<u64>)
    requires Good16(s) && Good16(r) && es.Cons? && IsLeaf(es.head) && |vs| == Len(es) && i + Len(es) <= 6
    requires q == SetReg(s, ArgReg(i), vs[0]) && LeavesIn(q, r, es.tail, i + 1, vs[1..])
    ensures LeavesIn(s, r, es, i, vs)
  {
    LeafRegsVolatile(es.tail, i + 1);
    forall n | 0 < n < Len(es) && IsLeaf(Nth(es, n))
      ensures r.regs[ArgReg(i + n)] == vs[n]
    {
      LaterArg(r, es, i, vs, n);
    }
  }

  lemma LeavesLater(s: State, r: State, es: Exprs, i: nat, vs: seq<u64>)
    requires Good16(s) && Good16(r) && es.Cons? && !IsLeaf(es.head) && |vs| == Len(es) && i + Len(es) <= 6
    requires LeavesIn(s, r, es.tail, i + 1, vs[1..])
    ensures LeavesIn(s, r, es, i, vs)
  {
    forall n | 0 < n < Len(es) && IsLeaf(Nth(es, n))
      ensures r.regs[ArgReg(i + n)] == vs[n]
    {
      LaterArg(r, es, i, vs, n);
    }
  }

  lemma LaterArg(r: State, es: Exprs, i: nat, vs: seq<u64>, n: nat)
    requires Good16(r) && es.Cons? && |vs| == Len(es) && i + Len(es) <= 6
    requires forall k :: 0 <= k < Len(es.tail) && IsLeaf(Nth(es.tail, k)) ==> r.regs[ArgReg(i + 1 + k)] == vs[1..][k]
    requires 0 < n < Len(es) && IsLeaf(Nth(es, n))
    ensures r.regs[ArgReg(i + n)] == vs[n]
  {
    assert Nth(es, n) == Nth(es.tail, n - 1);
    assert r.regs[ArgReg(i + 1 + (n - 1))] == vs[1..][n - 1];
  }

  lemma EmptyRun(W: World, s: State)
    requires Good16(s)
    ensures Run(W, [], s) == Some(s)
  {}

  /** After the leaf loads every argument is in its register. */
  lemma ArgsLoaded(W: World, es: Exprs, s: State, m: Mem, vs: seq<u64>, k: nat, n: nat)
    requires Good16(s) && Len(es) <= 6
    requires CallArgs(W, es, m, s.mem) == Some(vs) && ComplexIn(s, es, 0, vs)
    ensures var r := Run(W, LeafArgs(es, 0), s);
            r.Some? && ArgsIn(r.value, 0, vs) && r.value.mem == s.mem && r.value.stk == s.stk
            && Keeps(s, r.value, k, n)
  {
    hide Run, Step;
    SavedFacts();
    LeafArgsRun(W, es, 0, s, m, vs);
    LeafRegsVolatile(es, 0);
    var r := Run(W, LeafArgs(es, 0), s).value;
    forall n | 0 <= n < |vs|
      ensures r.regs[ArgReg(0 + n)] == vs[n]
    {
      if !IsLeaf(Nth(es, n)) {
        ComplexNotLeafReg(es, 0, n);
        assert s.regs[ArgReg(0 + n)] == vs[n];
      } else {
        assert r.regs[ArgReg(0 + n)] == vs[n];
      }
    }
  }

  // -------------------------------------------------------- complex arguments

  /** Pushing and popping nest: the code of all complex arguments is the first
      one's, a push, the code of the others, and a pop. */
  lemma ArgsNest(es: Exprs, i: nat, k: nat, j: nat, d: nat)
    requires es.Cons? && !IsLeaf(es.head)
    ensures PushArgs(es, k, j, d) + PopArgs(es, i)
         == Code(es.head, RAX, false, k, j, d) + [Push(RAX)]
            + (PushArgs(es.tail, k, j, d + 1) + PopArgs(es.tail, i + 1)) + [Pop(ArgReg(i))]
  {
    hide Code;
  }

  /** After PushArgs and PopArgs. */
  ghost predicate ComplexDone(W: World, code: seq<Instr>, s: State, es: Exprs, i: nat, vs: seq<u64>,
                              m: Mem, k: nat, n: nat)
    requires |vs| == Len(es)
  {
    && Good16(s)
    && var r := Run(W, code, s);
    && r.Some? && Keeps(s, r.value, k, n) && r.value.mem == m && ComplexIn(r.value, es, i, vs)
  }

  lemma ComplexSkip(W: World, es: Exprs, i: nat, k: nat, j: nat, d: nat, s: State, vs: seq<u64>, m: Mem)
    requires es.Cons? && IsLeaf(es.head) && |vs| == Len(es)
    requires ComplexDone(W, PushArgs(es.tail, k, j, d) + PopArgs(es.tail, i + 1), s, es.tail, i + 1, vs[1..], m, k, NeedAll(es.tail))
    ensures ComplexDone(W, PushArgs(es, k, j, d) + PopArgs(es, i), s, es, i, vs, m, k, NeedAll(es))
  {
    hide Run;
    assert PopArgs(es, i) == PopArgs(es.tail, i + 1);
    var r := Run(W, PushArgs(es, k, j, d) + PopArgs(es, i), s).value;
    forall n | 0 <= n < Len(es) && !IsLeaf(Nth(es, n))
      ensures r.regs[ArgReg(i + n)] == vs[n]
    {
      assert Nth(es, n) == Nth(es.tail, n - 1);
      assert r.regs[ArgReg(i + 1 + (n - 1))] == vs[1..][n - 1];
    }
  }

  lemma ComplexStep(W: World, es: Exprs, i: nat, k: nat, j: nat, d: nat, s: State, p: State, vs: seq<u64>, m1: Mem, m: Mem)
    requires es.Cons? && !IsLeaf(es.head) && |vs| == Len(es) && i + Len(es) <= 6
    requires Ready(W, s, d, SlotsArgs(es))
    requires Done(W, Code(es.head, RAX, false, k, j, d), s, RAX, Val(vs[0], m1), k, Need(es.head))
    requires Step(W, Push(RAX), Run(W, Code(es.head, RAX, false, k, j, d), s).value) == Some(p)
    requires ComplexDone(W, PushArgs(es.tail, k, j, d + 1) + PopArgs(es.tail, i + 1), p, es.tail, i + 1, vs[1..], m, k, NeedAll(es.tail))
    ensures ComplexDone(W, PushArgs(es, k, j, d) + PopArgs(es, i), s, es, i, vs, m, k, NeedAll(es))
  {
    hide Run, Code, Step;
    var n := NeedAll(es);
    var ch := Code(es.head, RAX, false, k, j, d);
    var inner := PushArgs(es.tail, k, j, d + 1) + PopArgs(es.tail, i + 1);
    var s1 := Run(W, ch, s).value;
    var p' := PushStep(W, s1, d, SlotsArgs(es));
    var q := Run(W, inner, p).value;
    ArgRegFacts();
    var s2 := PopStep(W, s1, p, q, ArgReg(i), d, SlotsArgs(es), k, NeedAll(es.tail));
    ThenOne(W, ch, Push(RAX), s);
    Then(W, ch + [Push(RAX)], inner, s);
    ThenOne(W, ch + [Push(RAX)] + inner, Pop(ArgReg(i)), s);
    ArgsNest(es, i, k, j, d);
    KeepsTrans(s, s1, s2, k, n, k, Need(es.head), k, NeedAll(es.tail));
    forall x | 0 <= x < Len(es) && !IsLeaf(Nth(es, x))
      ensures s2.regs[ArgReg(i + x)] == vs[x]
    {
      if x > 0 {
        assert Nth(es, x) == Nth(es.tail, x - 1);
        assert q.regs[ArgReg(i + 1 + (x - 1))] == vs[1..][x - 1];
      }
    }
  }

  // ------------------------------------------------------------------ the call

  /** What the two instructions of a call do one by one. */
  lemma Calling(W: World, s: State, s1: State, f: u64, vs: seq<u64>) returns (r: Option<State>)
    requires Good16(s) && GoodWorld(W) && s.regs[RSP] % 16 == 0 && W.lo + 8 <= s.regs[RSP] <= W.hi
    requires s.regs[R11] == f && ArgsIn(s, 0, vs) && W.arity(f) <= |vs| <= 6
    requires s1 == SetReg(s, RAX, 0).(flags := Undefined)
    ensures Step(W, Xor32(RAX, RAX), s) == Some(s1)
    ensures r == CallStep(W, s1, f) == Step(W, CallReg(R11), s1) && r.Some?
    ensures var given := vs[..W.arity(f)];
            r.value.regs[RAX] == W.result(f, given, s.mem) && r.value.mem == W.effect(f, given, s.mem)
  {
    ArgsSeen(s, vs, W.arity(f));
    SlotBelow(W, s.regs[RSP]);
    hide ArgVals, InStack, Sub64, ArgsIn, GoodWorld;
    r := CallStep(W, s1, f);
  }

  lemma ArgsSeen(s: State, vs: seq<u64>, n: nat)
    requires Good16(s) && ArgsIn(s, 0, vs) && n <= |vs| <= 6
    ensures ArgVals(SetReg(s, RAX, 0).(flags := Undefined), n) == vs[..n]
  {
    ArgRegFacts();
    ArgRegsAgree();
    hide AbiReg;
    forall i | 0 <= i < n ensures s.regs[ArgReg(i)] == vs[i] {
      assert s.regs[ArgReg(0 + i)] == vs[i];
    }
  }

  lemma SlotBelow(W: World, rsp: u64)
    requires GoodWorld(W) && rsp % 16 == 0 && W.lo + 8 <= rsp <= W.hi
    ensures InStack(W, Sub64(rsp, 8))
  {
    assert Sub64(rsp, 8) == rsp - 8;
    assert rsp == 8 * (2 * (rsp / 16));
  }

  /** The call instruction itself, from an aligned stack. */
  lemma CallRun(W: World, s: State, f: u64, vs: seq<u64>)
    requires Good16(s) && GoodWorld(W) && s.regs[RSP] % 16 == 0 && W.lo + 8 <= s.regs[RSP] <= W.hi
    requires s.regs[R11] == f && ArgsIn(s, 0, vs) && W.arity(f) <= |vs| <= 6
    ensures var r := Run(W, [Xor32(RAX, RAX), CallReg(R11)], s);
            var given := vs[..W.arity(f)];
            r.Some? && Keeps(s, r.value, 5, 0)
            && r.value.regs[RAX] == W.result(f, given, s.mem) && r.value.mem == W.effect(f, given, s.mem)
  {
    var s1 := SetReg(s, RAX, 0).(flags := Undefined);
    var r := Calling(W, s, s1, f, vs);
    hide Step, CallStep;
    CallKeeps(W, s1, f);
    RunOne(W, Xor32(RAX, RAX), s);
    ThenOne(W, [Xor32(RAX, RAX)], CallReg(R11), s);
    assert [Xor32(RAX, RAX)] + [CallReg(R11)] == [Xor32(RAX, RAX), CallReg(R11)];
  }

  lemma CallKeeps(W: World, s: State, f: u64)
    requires Good16(s) && CallStep(W, s, f).Some?
    ensures Keeps(s, CallStep(W, s, f).value, 5, 0)
  {
    SavedFacts();
    var r := CallStep(W, s, f).value;
    forall q: Reg | CalleeSaved(q)
      ensures r.regs[q] == s.regs[q]
    {}
    assert CalleeSaved(RSP) && CalleeSaved(RBP);
    forall i | 0 <= i < 5
      ensures r.regs[Saved(i)] == s.regs[Saved(i)]
    {
      assert CalleeSaved(Saved(i));
    }
  }

  lemma RspStep(W: World, op: AluOp, s: State)
    requires Good16(s) && !op.CmpOp?
    requires if op.AddOp? then s.regs[RSP] + 8 < TWO64 else 8 <= s.regs[RSP]
    ensures Step(W, AluImm(op, RSP, 8), s)
         == Some(SetReg(s, RSP, if op.AddOp? then s.regs[RSP] + 8 else s.regs[RSP] - 8).(flags := Undefined))
  {}

  /** RSP is 16-byte aligned at the call whatever the number of pushed words,
      and restored after it. */
  lemma CallCodeRun(W: World, s: State, d: nat, f: u64, vs: seq<u64>)
    requires Ready(W, s, d, 2) && s.regs[R11] == f && ArgsIn(s, 0, vs) && W.arity(f) <= |vs| <= 6
    ensures var r := Run(W, CallCode(d), s);
            var given := vs[..W.arity(f)];
            r.Some? && Keeps(s, r.value, 5, 0)
            && r.value.regs[RAX] == W.result(f, given, s.mem) && r.value.mem == W.effect(f, given, s.mem)
  {
    hide Run, Step, CallStep;
    SavedFacts();
    ArgRegFacts();
    var mid := [Xor32(RAX, RAX), CallReg(R11)];
    if d % 2 == 1 {
      var down, up := AluImm(SubOp, RSP, 8), AluImm(AddOp, RSP, 8);
      var s1 := SetReg(s, RSP, s.regs[RSP] - 8).(flags := Undefined);
      RspStep(W, SubOp, s);
      RunOne(W, down, s);
      assert ArgsIn(s1, 0, vs) by {
        forall n | 0 <= n < |vs| ensures s1.regs[ArgReg(0 + n)] == vs[n] {
          assert s.regs[ArgReg(0 + n)] == vs[n];
        }
      }
      CallRun(W, s1, f, vs);
      Then(W, [down], mid, s);
      var s2 := Run(W, mid, s1).value;
      RspStep(W, AddOp, s2);
      ThenOne(W, [down] + mid, up, s);
      var s3 := SetReg(s2, RSP, s.regs[RSP]).(flags := Undefined);
      assert CallCode(d) == [down] + mid + [up];
      assert Keeps(s, s3, 5, 0) by {
        forall i | 0 <= i < 5 ensures s3.regs[Saved(i)] == s.regs[Saved(i)] {
          assert s2.regs[Saved(i)] == s1.regs[Saved(i)];
        }
        forall a | a >= s.regs[RSP] ensures Slot(s3.stk, a) == Slot(s.stk, a) {
          assert Slot(s2.stk, a) == Slot(s1.stk, a);
        }
      }
    } else {
      CallRun(W, s, f, vs);
    }
  }
}
