/** The main theorem about emitted functions and what it gives for divergence.
    Functions that the trailing-return deletion breaks are the subject of
    TailDeletion. */
module FuncTheorem {
  import opened Words
  import opened Isa
  import opened IsaRoundTrip
  import opened Machine
  import opened Source
  import opened Select
  import opened ExprBasics
  import opened ExprProof
  import opened Layout
  import opened StmtProof
  import opened FuncProof

  /** The limits of the generator hold for a function. */
  ghost predicate FitsF(f: Func) { |f.params| <= 6 && FitsS(f.body) }

  /** A call returned normally: to its return address, with v in RAX, the memory
      m, RBX, RBP, RSP and R12-R15 as a SysV callee leaves them, and the
      caller's stack untouched. */
  ghost predicate ReturnsWith(s0: State, c: Cfg, v: u64, m: Mem) {
    && Good16(s0) && c.Returned? && Good16(c.s)
    && c.addr == Slot(s0.stk, s0.regs[RSP])
    && c.s.regs[RAX] == v && c.s.mem == m
    && c.s.regs[RSP] as int == s0.regs[RSP] as int + 8
    && (forall q: Reg :: CalleeSaved(q) && q != RSP ==> c.s.regs[q] == s0.regs[q])
    && (forall a :: a >= s0.regs[RSP] ==> Slot(c.s.stk, a) == Slot(s0.stk, a))
  }

  /** The same for a function with only the saves of a body that needs n registers:
      the registers it restores without having saved them are lost, and with a
      frame around them hold what lay in their slots. */
  ghost predicate ReturnsSaving(s0: State, c: Cfg, v: u64, m: Mem, n: nat, need: nat) {
    && Good16(s0) && c.Returned? && Good16(c.s)
    && c.addr == Slot(s0.stk, s0.regs[RSP])
    && c.s.regs[RAX] == v && c.s.mem == m
    && c.s.regs[RSP] as int == s0.regs[RSP] as int + 8
    && (forall q: Reg :: CalleeSaved(q) && q != RSP && !Lost(n, need, q) ==> c.s.regs[q] == s0.regs[q])
    && Leftover(s0, c.s, n, need)
    && (forall a :: a >= s0.regs[RSP] ==> Slot(c.s.stk, a) == Slot(s0.stk, a))
  }

  lemma NothingLost(s0: State, c: Cfg, v: u64, m: Mem, need: nat)
    requires ReturnsSaving(s0, c, v, m, need, need)
    ensures ReturnsWith(s0, c, v, m)
  {}

  /** The run of the body gets to its end without a `return`. */
  ghost predicate FallsOff(W: World, f: Func, vals: seq<u64>, m: Mem, fuel: nat)
    requires |f.params| <= |vals|
  {
    var m1 := StoreParams(W, f.params, vals, m);
    m1.Some? && Exec(W, f.body, if f.params == [] then 0 else f.params[|f.params| - 1], m1.value, fuel).Normal?
  }

  /** Where the epilogue of a function at start begins. */
  function EpilogueAt(start: int, f: Func, n: nat): int {
    start + Size(Prologue(n) + ParamCode(f.params, 0)) + Size(BodyCode(f.body))
  }

  /** Past the start of the epilogue, with the frame still up. */
  ghost predicate Missed(s0: State, c: Cfg, at: int, n: nat) {
    && Good16(s0) && c.At? && Good16(c.s) && c.rip == at + JMP_SIZE
    && c.s.regs[RSP] as int == s0.regs[RSP] as int - (if n == 0 then 8 else 56)
  }

  lemma BodyWf(body: Stmt)
    requires AllWf(BodyCode(body))
    ensures AllWf(StmtCode(body, Some(if TailReturn(body) then -JMP_SIZE else 0)))
  {
    hide StmtCode;
    if TailReturn(body) {
      TailShape(body, -JMP_SIZE);
      var c := StmtCode(body, Some(-JMP_SIZE));
      AllWfSplit(c[..|c| - 1], [Jmp(-JMP_SIZE)]);
    }
  }

  /** How the code of a function lies in the buffer. */
  lemma FuncParts(bytes: seq<byte>, start: int, f: Func, n: nat) returns (o1: int, o2: int, o3: int)
    requires CodeAt(bytes, start, FuncSaving(f, n)) && AllWf(FuncSaving(f, n))
    ensures var need := NeedS(f.body);
            var head := Prologue(n) + ParamCode(f.params, 0);
            && o1 == start + Size(head) && CodeAt(bytes, start, head) && AllWf(head)
            && o2 == o1 + Size(BodyCode(f.body)) && CodeAt(bytes, o1, BodyCode(f.body)) && AllWf(BodyCode(f.body))
            && o3 == o2 + Size(Restores(need, 0) + [Leave]) && CodeAt(bytes, o2, Restores(need, 0) + [Leave])
            && AllWf(Restores(need, 0) + [Leave])
            && CodeAt(bytes, o3, [Ret])
  {
    hide CodeAt, AllWf, Size;
    var need := NeedS(f.body);
    var head, body := Prologue(n) + ParamCode(f.params, 0), BodyCode(f.body);
    var tail := Restores(need, 0) + [Leave];
    assert FuncSaving(f, n) == head + body + tail + [Ret];
    hide Prologue, ParamCode, BodyCode, Restores, FuncSaving;
    o1 := start + Size(head);
    o2 := o1 + Size(body);
    o3 := o2 + Size(tail);
    CodeAtSplit(bytes, start, head + body + tail, [Ret]);
    CodeAtSplit(bytes, start, head + body, tail);
    CodeAtSplit(bytes, start, head, body);
    SizeConcat(head + body, tail);
    SizeConcat(head, body);
    AllWfSplit(head + body + tail, [Ret]);
    AllWfSplit(head + body, tail);
    AllWfSplit(head, body);
  }

  /** Prologue and parameters set up the state the body's meaning starts from. */
  lemma HeadRun(W: World, f: Func, n: nat, s0: State) returns (s2: State)
    requires Entry(W, s0, SlotsS(f.body)) && FitsF(f) && n <= 5
    requires StoreParams(W, f.params, ArgVals(s0, |f.params|), s0.mem).Some?
    ensures Run(W, Prologue(n) + ParamCode(f.params, 0), s0) == Some(s2)
            && Framed(s0, s2.(regs := s2.regs[RAX := 0], mem := s0.mem), n) && Good16(s2)
            && Ready(W, s2, 0, SlotsS(f.body))
    ensures s2.mem == StoreParams(W, f.params, ArgVals(s0, |f.params|), s0.mem).value
    ensures s2.regs[RAX] == if f.params == [] then 0 else f.params[|f.params| - 1]
  {
    hide Run, Step, StoreParams;
    PrologueRun(W, n, s0, SlotsS(f.body));
    var s1 := Run(W, Prologue(n), s0).value;
    ArgRegsKept(s0, s1, n, |f.params|);
    ParamsRun(W, f.params, 0, ArgVals(s0, |f.params|), s1);
    Then(W, Prologue(n), ParamCode(f.params, 0), s0);
    s2 := Run(W, ParamCode(f.params, 0), s1).value;
    assert s2.regs[RAX := 0] == s1.regs;
  }

  lemma ArgRegsKept(s0: State, s1: State, n: nat, count: nat)
    requires Framed(s0, s1, n) && count <= 6
    ensures forall i :: 0 <= i < count ==> s1.regs[ArgReg(0 + i)] == ArgVals(s0, count)[i]
  {
    ArgRegsAgree();
    hide AbiReg;
  }

  lemma RspNotLost(n: nat, need: nat)
    ensures CalleeSaved(RSP) && !Lost(n, need, RSP)
  {
    SaveRegFacts();
  }

  /** From the epilogue to the return. */
  lemma TailRun(W: World, bytes: seq<byte>, n: nat, need: nat, o2: int, o3: int, s0: State, s1: State, s3: State, slots: nat)
    returns (k: nat, c: Cfg)
    requires Entry(W, s0, slots) && n <= need <= 5 && Framed(s0, s1, n) && Keeps(s1, s3, 0, need)
    requires CodeAt(bytes, o2, Restores(need, 0) + [Leave]) && AllWf(Restores(need, 0) + [Leave])
    requires o3 == o2 + Size(Restores(need, 0) + [Leave]) && CodeAt(bytes, o3, [Ret])
    ensures Steps(W, bytes, At(o2, s3), k) == Some(c) && ReturnsSaving(s0, c, s3.regs[RAX], s3.mem, n, need)
    ensures FromSlots(s0, s3, c.s, need)
  {
    hide Steps, CodeAt, AllWf, Run, Step, Restores, Size, Lost, Framed;
    EpilogueRun(W, n, need, s0, s1, s3, slots);
    var tail := Restores(need, 0) + [Leave];
    Straight(W, bytes, o2, tail, s3);
    var s4 := Run(W, tail, s3).value;
    RspNotLost(n, need);
    RetAt(W, bytes, o3, s4);
    c := Returned(Slot(s4.stk, s4.regs[RSP]), SetReg(s4, RSP, s4.regs[RSP] + 8));
    Chain(W, bytes, At(o2, s3), |tail|, At(o3, s4), 1, c);
    k := |tail| + 1;
  }

  /** A call of the bytes of a function with only some of its saves. */
  lemma SavingCall(W: World, bytes: seq<byte>, start: int, f: Func, n: nat, s0: State, fuel: nat)
    returns (steps: nat, c: Cfg)
    requires n <= NeedS(f.body) && CodeAt(bytes, start, FuncSaving(f, n)) && AllWf(FuncSaving(f, n))
    requires FitsF(f) && Entry(W, s0, SlotsS(f.body))
    requires ExecFunc(W, f, ArgVals(s0, |f.params|), s0.mem, fuel) != Stuck
    ensures Steps(W, bytes, At(start, s0), steps) == Some(c)
    ensures match ExecFunc(W, f, ArgVals(s0, |f.params|), s0.mem, fuel)
            case Finished(v, m) =>
              if TailIf(f.body) && FallsOff(W, f, ArgVals(s0, |f.params|), s0.mem, fuel)
              then Missed(s0, c, EpilogueAt(start, f, n), n)
              else ReturnsSaving(s0, c, v, m, n, NeedS(f.body))
            case OutOfFuel => steps >= fuel && c.At?
            case _ => false
  {
    hide Steps, CodeAt, AllWf, Run, Step, Exec, Prologue, ParamCode, BodyCode, Restores, Size, StmtCode, ArgVals, StoreParams;
    var head := Prologue(n) + ParamCode(f.params, 0);
    var o1, o2, o3 := FuncParts(bytes, start, f, n);
    var s2 := HeadRun(W, f, n, s0);
    Straight(W, bytes, start, head, s0);
    BodyWf(f.body);
    var k2, c2 := BodyCorrect(W, bytes, f.body, o1, s2, fuel);
    Chain(W, bytes, At(start, s0), |head|, At(o1, s2), k2, c2);
    steps, c := |head| + k2, c2;
    var o := Exec(W, f.body, s2.regs[RAX], s2.mem, fuel);
    if o.OutOfFuel? || (o.Normal? && TailIf(f.body)) { return; }
    var s1 := s2.(regs := s2.regs[RAX := 0], mem := s0.mem);
    assert Keeps(s1, c2.s, 0, NeedS(f.body));
    var k3;
    k3, c := TailRun(W, bytes, n, NeedS(f.body), o2, o3, s0, s1, c2.s, SlotsS(f.body));
    Chain(W, bytes, At(start, s0), |head| + k2, c2, k3, c);
    steps := |head| + k2 + k3;
  }

  /** A call of the emitted bytes. Whatever the callees do, whatever the fuel:
      if the source function ends with v and m, the machine, started at the
      function's first byte by a SysV caller, returns with v and m and the
      caller's registers and stack intact; while the source is still running
      after n loop rounds, the machine is still running after n steps. */
  lemma FunctionCorrect(W: World, bytes: seq<byte>, start: int, f: Func, s0: State, fuel: nat)
    returns (steps: nat, c: Cfg)
    requires CodeAt(bytes, start, FuncCode(f)) && AllWf(FuncCode(f))
    requires FitsF(f) && !TailIf(f.body)
    requires Entry(W, s0, SlotsS(f.body))
    requires ExecFunc(W, f, ArgVals(s0, |f.params|), s0.mem, fuel) != Stuck
    ensures Steps(W, bytes, At(start, s0), steps) == Some(c)
    ensures match ExecFunc(W, f, ArgVals(s0, |f.params|), s0.mem, fuel)
            case Finished(v, m) => ReturnsWith(s0, c, v, m)
            case OutOfFuel => steps >= fuel && c.At?
            case _ => false
  {
    hide Steps, CodeAt, AllWf, ExecFunc, Prologue, ParamCode, BodyCode, Epilogue, ReturnsSaving, ReturnsWith;
    var need := NeedS(f.body);
    assert FuncCode(f) == FuncSaving(f, need);
    steps, c := SavingCall(W, bytes, start, f, need, s0, fuel);
    match ExecFunc(W, f, ArgVals(s0, |f.params|), s0.mem, fuel)
    case Finished(v, m) => NothingLost(s0, c, v, m, need);
    case _ =>
  }

  // -------------------------------------------------------------- divergence

  /** A run that has come this far did not stop before. */
  lemma StillRunning(W: World, bytes: seq<byte>, c0: Cfg, n: nat, more: nat, c: Cfg)
    requires Good16(c0.s) && n <= more
    requires Steps(W, bytes, c0, more) == Some(c)
    ensures Steps(W, bytes, c0, n).Some?
    ensures c.At? ==> Steps(W, bytes, c0, n).value.At?
  {
    StepsAdd(W, bytes, c0, n, more - n);
  }

  /** For a function without undefined behaviour, the machine returns exactly
      when the source function ends. */
  lemma ReturnsIffEnds(W: World, bytes: seq<byte>, start: int, f: Func, s0: State)
    requires CodeAt(bytes, start, FuncCode(f)) && AllWf(FuncCode(f))
    requires FitsF(f) && !TailIf(f.body)
    requires Entry(W, s0, SlotsS(f.body))
    requires forall fuel: nat :: ExecFunc(W, f, ArgVals(s0, |f.params|), s0.mem, fuel) != Stuck
    ensures (exists n: nat :: var r := Steps(W, bytes, At(start, s0), n); r.Some? && r.value.Returned?)
       <==> (exists fuel: nat :: ExecFunc(W, f, ArgVals(s0, |f.params|), s0.mem, fuel).Finished?)
  {
    hide Steps, ExecFunc, CodeAt, AllWf, FuncCode, ArgVals;
    var vals := ArgVals(s0, |f.params|);
    if fuel: nat :| ExecFunc(W, f, vals, s0.mem, fuel).Finished? {
      var steps, c := FunctionCorrect(W, bytes, start, f, s0, fuel);
      assert Steps(W, bytes, At(start, s0), steps).value.Returned?;
    }
    if n: nat :| Steps(W, bytes, At(start, s0), n).Some? && Steps(W, bytes, At(start, s0), n).value.Returned? {
      var steps, c := FunctionCorrect(W, bytes, start, f, s0, n + 1);
      if c.At? {
        StillRunning(W, bytes, At(start, s0), n, steps, c);
      }
      assert ExecFunc(W, f, vals, s0.mem, n + 1).Finished?;
    }
  }
}
