/** Code of statements and functions: branches are relative byte distances, so
    the layout needs the exact size of everything that is jumped over. */
module Layout {
  import opened Words
  import opened Isa
  import opened IsaRoundTrip
  import opened Machine
  import opened Source
  import opened Select

  function Size(code: seq<Instr>): nat { |EncodeAll(code)| }

  const JMP_SIZE := 5
  const JCC_SIZE := 6

  // ------------------------------------------------------------- resources

  function NeedS(st: Stmt): nat {
    match st
    case Skip => 0
    case Seq(a, b) => MaxInt(NeedS(a), NeedS(b))
    case ExprS(e) => Need(e)
    case If(c, b) => MaxInt(Need(c), NeedS(b))
    case While(c, b) => MaxInt(Need(c), NeedS(b))
    case Return(e) => Need(e)
  }

  function SlotsS(st: Stmt): nat {
    match st
    case Skip => 0
    case Seq(a, b) => MaxInt(SlotsS(a), SlotsS(b))
    case ExprS(e) => Slots(e)
    case If(c, b) => MaxInt(Slots(c), SlotsS(b))
    case While(c, b) => MaxInt(Slots(c), SlotsS(b))
    case Return(e) => Slots(e)
  }

  predicate CallsFitS(st: Stmt) {
    match st
    case Skip => true
    case Seq(a, b) => CallsFitS(a) && CallsFitS(b)
    case ExprS(e) => CallsFit(e)
    case If(c, b) => CallsFit(c) && CallsFitS(b)
    case While(c, b) => CallsFit(c) && CallsFitS(b)
    case Return(e) => CallsFit(e)
  }

  predicate ArraysFitS(st: Stmt) {
    match st
    case Skip => true
    case Seq(a, b) => ArraysFitS(a) && ArraysFitS(b)
    case ExprS(e) => ArraysFit(e)
    case If(c, b) => ArraysFit(c) && ArraysFitS(b)
    case While(c, b) => ArraysFit(c) && ArraysFitS(b)
    case Return(e) => ArraysFit(e)
  }

  // ------------------------------------------------------------- statements

  /** Bytes of a statement's code. */
  function StmtSize(st: Stmt): nat {
    match st
    case Skip => 0
    case Seq(a, b) => StmtSize(a) + StmtSize(b)
    case ExprS(e) => Size(Code(e, RAX, true, 0, 0, 0))
    case If(c, b) => Size(CondCode(c)) + JCC_SIZE + StmtSize(b)
    case While(c, b) => Size(CondCode(c)) + JCC_SIZE + StmtSize(b) + JMP_SIZE
    case Return(e) => Size(Code(e, RAX, false, 0, 0, 0)) + JMP_SIZE
  }

  /** Code of a statement. `exit` is the distance from its end to where `return`
      goes; None while that is not known and the branches hold zero. */
  function StmtCode(st: Stmt, exit: Option<int>): seq<Instr> {
    match st
    case Skip => []
    case Seq(a, b) => StmtCode(a, Farther(exit, StmtSize(b))) + StmtCode(b, exit)
    case ExprS(e) => Code(e, RAX, true, 0, 0, 0)
    case If(c, b) => CondCode(c) + [Jcc(SkipCC(c), StmtSize(b))] + StmtCode(b, exit)
    case While(c, b) =>
      CondCode(c) + [Jcc(SkipCC(c), StmtSize(b) + JMP_SIZE)]
      + StmtCode(b, Farther(exit, JMP_SIZE)) + [Jmp(Back(StmtSize(st)))]
    case Return(e) => Code(e, RAX, false, 0, 0, 0) + [Jmp(exit.GetOr(0))]
  }

  function Back(n: int): int { -n }

  function Farther(exit: Option<int>, n: nat): Option<int> {
    match exit case Some(x) => Some(x + n) case None => None
  }

  /** The statement emits nothing. */
  predicate NoCode(st: Stmt) {
    match st
    case Skip => true
    case Seq(a, b) => NoCode(a) && NoCode(b)
    case _ => false
  }

  /** The code of the statement ends with the branch of a `return`. */
  predicate TailReturn(st: Stmt) {
    match st
    case Return(_) => true
    case Seq(a, b) => if NoCode(b) then TailReturn(a) else TailReturn(b)
    case If(_, b) => TailReturn(b)
    case _ => false
  }

  /** That `return` is inside an `if`. */
  predicate TailIf(st: Stmt) {
    match st
    case Seq(a, b) => if NoCode(b) then TailIf(a) else TailIf(b)
    case If(_, b) => TailReturn(b)
    case _ => false
  }

  /** The body as finally emitted: a `return` that would jump to the epilogue
      right behind it loses its branch. */
  function BodyCode(body: Stmt): seq<Instr> {
    if TailReturn(body) then
      var c := StmtCode(body, Some(-JMP_SIZE));
      if |c| > 0 then c[..|c| - 1] else c
    else StmtCode(body, Some(0))
  }

  // -------------------------------------------------------------- functions

  /** The k-th callee-saved register is stored at [rbp - 8(k+1)]. */
  const SAVE_ORDER: seq<Reg> := [RBX, R12, R13, R14, R15]

  const FRAME_SIZE := 48

  function SaveReg(k: int): Reg { if 0 <= k < 5 then SAVE_ORDER[k] else 0 }

  /** Whether the k-th slot is used by a body that picks the first n registers
      of the saved pool. */
  predicate SlotUsed(n: nat, k: nat) { if k == 0 then n >= 5 else n >= k }

  function SaveSlot(n: nat, k: nat): Instr {
    if SlotUsed(n, k) then Store(RBP, -8 * (k + 1), SaveReg(k)) else Nop4
  }

  function SaveSlots(n: nat, k: nat): seq<Instr>
    decreases 5 - k
  {
    if k >= 5 then [] else [SaveSlot(n, k)] + SaveSlots(n, k + 1)
  }

  /** The frame is made only for a function that saves something. */
  function FrameSub(n: nat): Instr { if n == 0 then Nop4 else AluImm(SubOp, RSP, FRAME_SIZE) }

  /** Saves that turn out unused, and the frame of a function without any, are
      overwritten by no-ops of the same length. */
  function Prologue(n: nat): seq<Instr> {
    [Push(RBP), MovRR(RBP, RSP), FrameSub(n)] + SaveSlots(n, 0) + [Xor32(RAX, RAX)]
  }

  function Restore(n: nat, k: nat): seq<Instr> {
    if SlotUsed(n, k) then [Load(SaveReg(k), RBP, -8 * (k + 1))] else []
  }

  function Restores(n: nat, k: nat): seq<Instr>
    decreases 5 - k
  {
    if k >= 5 then [] else Restore(n, k) + Restores(n, k + 1)
  }

  function Epilogue(n: nat): seq<Instr> { Restores(n, 0) + [Leave, Ret] }

  function ParamCode(params: seq<u64>, i: nat): seq<Instr>
    decreases |params|
  {
    if params == [] then []
    else [MovImm64(RAX, params[0]), Store(RAX, 0, ArgReg(i))] + ParamCode(params[1..], i + 1)
  }

  function FuncCode(f: Func): seq<Instr> {
    var n := NeedS(f.body);
    Prologue(n) + ParamCode(f.params, 0) + BodyCode(f.body) + Epilogue(n)
  }

  /** The same function with only the saves of a body that needs n registers. */
  function FuncSaving(f: Func, n: nat): seq<Instr> {
    Prologue(n) + ParamCode(f.params, 0) + BodyCode(f.body) + Epilogue(NeedS(f.body))
  }

  // ------------------------------------------------------------------- sizes

  lemma SizeConcat(a: seq<Instr>, b: seq<Instr>)
    ensures Size(a + b) == Size(a) + Size(b)
  {
    EncodeAllConcat(a, b);
  }

  lemma SizeOne(i: Instr)
    ensures Size([i]) == |Encode(i)|
  {
    hide Encode;
    EncodeAllOne(i);
  }

  lemma JumpSizes(cc: int, rel: int)
    ensures Size([Jmp(rel)]) == JMP_SIZE && Size([Jcc(cc, rel)]) == JCC_SIZE
  {
    SizeOne(Jmp(rel));
    SizeOne(Jcc(cc, rel));
  }

  /** The size of a statement does not depend on where `return` goes. */
  lemma {:induction false} StmtSizeOk(st: Stmt, exit: Option<int>)
    ensures Size(StmtCode(st, exit)) == StmtSize(st)
  {
    hide Size, Code, CondCode;
    match st
    case Skip =>
      assert Size([]) == 0 by { EmptySize(); }
    case Seq(a, b) =>
      StmtSizeOk(a, Farther(exit, StmtSize(b)));
      StmtSizeOk(b, exit);
      SizeConcat(StmtCode(a, Farther(exit, StmtSize(b))), StmtCode(b, exit));
    case ExprS(e) =>
    case If(c, b) =>
      StmtSizeOk(b, exit);
      var j := Jcc(SkipCC(c), StmtSize(b));
      JumpSizes(SkipCC(c), StmtSize(b));
      SizeConcat(CondCode(c), [j]);
      SizeConcat(CondCode(c) + [j], StmtCode(b, exit));
    case While(c, b) =>
      StmtSizeOk(b, Farther(exit, JMP_SIZE));
      var j, back := Jcc(SkipCC(c), StmtSize(b) + JMP_SIZE), Jmp(Back(StmtSize(st)));
      JumpSizes(SkipCC(c), StmtSize(b) + JMP_SIZE);
      JumpSizes(0, Back(StmtSize(st)));
      SizeConcat(CondCode(c), [j]);
      SizeConcat(CondCode(c) + [j], StmtCode(b, Farther(exit, JMP_SIZE)));
      SizeConcat(CondCode(c) + [j] + StmtCode(b, Farther(exit, JMP_SIZE)), [back]);
    case Return(e) =>
      JumpSizes(0, exit.GetOr(0));
      SizeConcat(Code(e, RAX, false, 0, 0, 0), [Jmp(exit.GetOr(0))]);
  }

  lemma EmptySize()
    ensures Size([]) == 0
  {}

  // -------------------------------------------------------- code in the buffer

  /** The bytes at offset off are exactly this code. */
  ghost predicate CodeAt(bytes: seq<byte>, off: int, code: seq<Instr>) {
    && 0 <= off && off + Size(code) <= |bytes|
    && bytes[off..off + Size(code)] == EncodeAll(code)
  }

  lemma CodeAtSplit(bytes: seq<byte>, off: int, a: seq<Instr>, b: seq<Instr>)
    requires CodeAt(bytes, off, a + b)
    ensures CodeAt(bytes, off, a) && CodeAt(bytes, off + Size(a), b)
  {
    EncodeAllConcat(a, b);
    hide EncodeAll;
    SliceSplit(bytes, off, EncodeAll(a), EncodeAll(b));
  }

  lemma SliceSplit(bytes: seq<byte>, off: nat, a: seq<byte>, b: seq<byte>)
    requires off + |a| + |b| <= |bytes| && bytes[off..off + |a| + |b|] == a + b
    ensures bytes[off..off + |a|] == a && bytes[off + |a|..off + |a| + |b|] == b
  {
    var all := bytes[off..off + |a| + |b|];
    assert bytes[off..off + |a|] == all[..|a|];
    assert bytes[off + |a|..off + |a| + |b|] == all[|a|..];
  }

  lemma AllWfSplit(a: seq<Instr>, b: seq<Instr>)
    ensures AllWf(a + b) <==> AllWf(a) && AllWf(b)
  {
    if AllWf(a + b) {
      forall n | 0 <= n < |a| ensures Wf(a[n]) { assert Wf((a + b)[n]); }
      forall n | 0 <= n < |b| ensures Wf(b[n]) { assert Wf((a + b)[|a| + n]); }
    }
  }
}
