/** Every field of the emitted code is in range as long as the body of the
    function is shorter than two gigabytes. */
module Ranges {
  import opened Words
  import opened Isa
  import opened IsaRoundTrip
  import opened Machine
  import opened Source
  import opened Select
  import opened Layout
  import opened FuncProof
  import opened Plain

  lemma PlainWf(code: seq<Instr>)
    requires AllPlain(code)
    ensures AllWf(code)
  {
    forall n | 0 <= n < |code| ensures Wf(code[n]) { assert PlainInstr(code[n]); }
  }

  lemma JumpWf(cc: int, rel: int)
    requires I32(rel) && 0 <= cc < 16
    ensures AllWf([Jmp(rel)]) && AllWf([Jcc(cc, rel)])
  {}

  lemma SkipCCOk(c: Expr)
    ensures 0 <= SkipCC(c) < 16
  {}

  /** Branch distances are bounded by the size of the statement and the distance
      of the exit. */
  lemma {:induction false} StmtWf(st: Stmt, exit: int)
    requires -JMP_SIZE <= exit && StmtSize(st) + exit + JMP_SIZE < TWO31
    ensures AllWf(StmtCode(st, Some(exit)))
  {
    hide Size, Code, CondCode, AllWf, SkipCC;
    match st
    case Skip => PlainWf([]);
    case Seq(a, b) =>
      StmtWf(a, exit + StmtSize(b));
      StmtWf(b, exit);
      AllWfSplit(StmtCode(a, Some(exit + StmtSize(b))), StmtCode(b, Some(exit)));
    case ExprS(e) =>
      CodePlain(e, RAX, true, 0, 0, 0);
      PlainWf(Code(e, RAX, true, 0, 0, 0));
    case If(c, b) =>
      StmtWf(b, exit);
      CondPlain(c);
      PlainWf(CondCode(c));
      SkipCCOk(c);
      JumpWf(SkipCC(c), StmtSize(b));
      var j := Jcc(SkipCC(c), StmtSize(b));
      AllWfSplit(CondCode(c), [j]);
      AllWfSplit(CondCode(c) + [j], StmtCode(b, Some(exit)));
    case While(c, b) =>
      StmtWf(b, exit + JMP_SIZE);
      CondPlain(c);
      PlainWf(CondCode(c));
      SkipCCOk(c);
      JumpWf(SkipCC(c), StmtSize(b) + JMP_SIZE);
      JumpWf(0, Back(StmtSize(st)));
      var j, cb := Jcc(SkipCC(c), StmtSize(b) + JMP_SIZE), StmtCode(b, Some(exit + JMP_SIZE));
      AllWfSplit(CondCode(c), [j]);
      AllWfSplit(CondCode(c) + [j], cb);
      AllWfSplit(CondCode(c) + [j] + cb, [Jmp(Back(StmtSize(st)))]);
    case Return(e) =>
      CodePlain(e, RAX, false, 0, 0, 0);
      PlainWf(Code(e, RAX, false, 0, 0, 0));
      JumpWf(0, exit);
      AllWfSplit(Code(e, RAX, false, 0, 0, 0), [Jmp(exit)]);
  }

  lemma BodyCodeWf(body: Stmt)
    requires StmtSize(body) + JMP_SIZE < TWO31
    ensures AllWf(BodyCode(body))
  {
    hide StmtCode;
    if TailReturn(body) {
      TailShape(body, -JMP_SIZE);
      StmtWf(body, -JMP_SIZE);
      var c := StmtCode(body, Some(-JMP_SIZE));
      AllWfSplit(c[..|c| - 1], [Jmp(-JMP_SIZE)]);
    } else {
      StmtWf(body, 0);
    }
  }

  lemma {:induction false} SaveSlotsWf(n: nat, k: nat)
    ensures AllWf(SaveSlots(n, k)) && AllWf(Restores(n, k))
    decreases 5 - k
  {
    if k < 5 {
      SaveSlotsWf(n, k + 1);
      OneSlotWf(n, k);
      AllWfSplit([SaveSlot(n, k)], SaveSlots(n, k + 1));
      AllWfSplit(Restore(n, k), Restores(n, k + 1));
    }
  }

  lemma OneSlotWf(n: nat, k: nat)
    requires k < 5
    ensures AllWf([SaveSlot(n, k)]) && AllWf(Restore(n, k))
  {}

  lemma {:induction false} ParamCodeWf(params: seq<u64>, i: nat)
    ensures AllWf(ParamCode(params, i))
    decreases |params|
  {
    if params != [] {
      ParamCodeWf(params[1..], i + 1);
      var head := [MovImm64(RAX, params[0]), Store(RAX, 0, ArgReg(i))];
      assert AllWf(head);
      AllWfSplit(head, ParamCode(params[1..], i + 1));
    }
  }

  lemma FrameWf(n: nat)
    ensures AllWf(Prologue(n)) && AllWf(Epilogue(n))
  {
    var head, last := [Push(RBP), MovRR(RBP, RSP), FrameSub(n)], [Leave, Ret];
    assert AllWf(head) && AllWf([Xor32(RAX, RAX)]) && AllWf(last);
    hide AllWf, SaveSlots, Restores;
    SaveSlotsWf(n, 0);
    AllWfSplit(head, SaveSlots(n, 0));
    AllWfSplit(head + SaveSlots(n, 0), [Xor32(RAX, RAX)]);
    AllWfSplit(Restores(n, 0), last);
  }

  /** The fields around the body are always in range. */
  lemma FuncWf(f: Func)
    ensures AllWf(FuncCode(f)) <==> AllWf(BodyCode(f.body))
  {
    hide AllWf, BodyCode, Prologue, ParamCode, Epilogue;
    var n := NeedS(f.body);
    FrameWf(n);
    ParamCodeWf(f.params, 0);
    AllWfSplit(Prologue(n), ParamCode(f.params, 0));
    AllWfSplit(Prologue(n) + ParamCode(f.params, 0), BodyCode(f.body));
    AllWfSplit(Prologue(n) + ParamCode(f.params, 0) + BodyCode(f.body), Epilogue(n));
  }

  lemma FuncCodeWf(f: Func)
    requires StmtSize(f.body) + JMP_SIZE < TWO31
    ensures AllWf(FuncCode(f))
  {
    FuncWf(f);
    BodyCodeWf(f.body);
  }
}
