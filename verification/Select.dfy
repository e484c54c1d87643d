/** Which instructions each tree becomes: the code generator of
    src/codegen/x64codegen.c as functions. Registers come from two pools that
    are used as stacks, so a count of reserved registers stands for the set. */
module Select {
  import opened Words
  import opened Isa
  import opened Machine
  import opened Source

  const SCRATCH: seq<Reg> := [R10, R9, R8, RSI, RDI, RCX, RDX]
  const SAVED: seq<Reg> := [R12, R13, R14, R15, RBX]

  /** The register picked when the first i of the pool are reserved. */
  function Scratch(i: int): Reg { if 0 <= i < 7 then SCRATCH[i] else 0 }

  function Saved(i: int): Reg { if 0 <= i < 5 then SAVED[i] else 0 }

  const ARG_REGS: seq<Reg> := [RDI, RSI, RDX, RCX, R8, R9]

  /** The register the generator moves argument i to, and takes parameter i from. */
  function ArgReg(i: int): Reg { if 0 <= i < 6 then ARG_REGS[i] else 0 }

  /** It is where the ABI says. */
  lemma ArgRegsAgree()
    ensures forall i: int :: ArgReg(i) == AbiReg(i)
  {}

  function MaxInt(a: int, b: int): int { if a < b then b else a }

  // ------------------------------------------------------------- resources

  /** Saved registers picked at once while e is compiled. */
  function Need(e: Expr): nat
    decreases e, 0
  {
    match e
    case Num(_) => 0
    case Str(_) => 0
    case Cell(_) => 0
    case Arr(_, es) => 1 + NeedAll(es)
    case Index(b, i) => MaxInt(Need(b), NeedRight(i))
    case Assign(t, v) => if t.Cell? then Need(v) else MaxInt(Need(t), NeedRight(v))
    case AddAssign(t, v) => MaxInt(Need(t), NeedRight(v))
    case Bin(_, l, r) => MaxInt(Need(l), NeedRight(r))
    case Call(c, es) => MaxInt(Need(c), NeedAll(es))
  }

  /** A right operand that is not a leaf keeps one more register busy. */
  function NeedRight(e: Expr): nat
    decreases e, 1
  {
    if IsLeaf(e) then 0 else 1 + Need(e)
  }

  function NeedAll(es: Exprs): nat
    decreases es, 0
  {
    match es case Nil => 0 case Cons(h, t) => MaxInt(Need(h), NeedAll(t))
  }

  /** Stack slots the code of e uses below RSP. */
  function Slots(e: Expr): nat {
    match e
    case Num(_) => 0
    case Str(_) => 0
    case Cell(_) => 0
    case Arr(_, es) => SlotsAll(es)
    case Index(b, i) => MaxInt(Slots(b), Slots(i))
    case Assign(t, v) => MaxInt(Slots(t), Slots(v))
    case AddAssign(t, v) => MaxInt(Slots(t), Slots(v))
    case Bin(_, l, r) => MaxInt(Slots(l), Slots(r))
    case Call(c, es) => MaxInt(Slots(c), 1 + MaxInt(2, SlotsArgs(es)))
  }

  function SlotsAll(es: Exprs): nat {
    match es case Nil => 0 case Cons(h, t) => MaxInt(Slots(h), SlotsAll(t))
  }

  /** Each complex argument is pushed before the next one is evaluated. */
  function SlotsArgs(es: Exprs): nat {
    match es
    case Nil => 0
    case Cons(h, t) => if IsLeaf(h) then SlotsArgs(t) else MaxInt(Slots(h), 1 + SlotsArgs(t))
  }

  /** Every call has at most six arguments. */
  predicate CallsFit(e: Expr) {
    match e
    case Num(_) => true
    case Str(_) => true
    case Cell(_) => true
    case Arr(_, es) => CallsFitAll(es)
    case Index(b, i) => CallsFit(b) && CallsFit(i)
    case Assign(t, v) => CallsFit(t) && CallsFit(v)
    case AddAssign(t, v) => CallsFit(t) && CallsFit(v)
    case Bin(_, l, r) => CallsFit(l) && CallsFit(r)
    case Call(c, es) => Len(es) <= 6 && CallsFit(c) && CallsFitAll(es)
  }

  predicate CallsFitAll(es: Exprs) {
    match es case Nil => true case Cons(h, t) => CallsFit(h) && CallsFitAll(t)
  }

  /** Every array literal is short enough for its offsets not to wrap. */
  predicate ArraysFit(e: Expr) {
    match e
    case Num(_) => true
    case Str(_) => true
    case Cell(_) => true
    case Arr(_, es) => Len(es) <= 0x1000_0000 && ArraysFitAll(es)
    case Index(b, i) => ArraysFit(b) && ArraysFit(i)
    case Assign(t, v) => ArraysFit(t) && ArraysFit(v)
    case AddAssign(t, v) => ArraysFit(t) && ArraysFit(v)
    case Bin(_, l, r) => ArraysFit(l) && ArraysFit(r)
    case Call(c, es) => ArraysFit(c) && ArraysFitAll(es)
  }

  predicate ArraysFitAll(es: Exprs) {
    match es case Nil => true case Cons(h, t) => ArraysFit(h) && ArraysFitAll(t)
  }

  // ------------------------------------------------------------ expressions

  /** The three forms of a constant. */
  function MovConst(r: Reg, n: u64): Instr {
    if n < TWO32 then MovImm32(r, n)
    else if n >= TWO64 - TWO31 then MovSext32(r, n - TWO64)
    else MovImm64(r, n)
  }

  /** Moving a register onto itself emits nothing. */
  function Mov(dst: Reg, src: Reg): seq<Instr> {
    if dst == src then [] else [MovRR(dst, src)]
  }

  /** A number that folds into an instruction. */
  predicate SmallImm(e: Expr) { e.Num? && e.n <= INT32_MAX }

  /** An index whose scaled value folds. */
  predicate SmallIndex(e: Expr) { e.Num? && e.n <= INT32_MAX / 8 }

  function LeafCode(e: Expr, t: Reg, addr: bool): seq<Instr>
    requires IsLeaf(e)
  {
    match e
    case Num(n) => [MovConst(t, n)]
    case Str(p) => [MovImm64(t, p)]
    case Cell(a) =>
      if !addr && t == RAX then [LoadRaxAbs(a)]
      else [MovImm64(t, a)] + if addr then [] else [Load(t, t, 0)]
  }

  /** Offset of array slot i, truncated to 32 bits as the source does. */
  function Disp(i: nat): int { Signed32(8 * i % TWO32) }

  /** The exponent of a power of two. */
  function Log2(n: nat): nat { if n <= 1 then 0 else 1 + Log2(n / 2) }

  predicate IsPow2(n: nat) { n > 0 && Pow2(Log2(n)) == n }

  function AluImmCode(op: BinOp, t: Reg, n: nat): seq<Instr> {
    match op
    case Add => if n == 0 then [] else [AluImm(AddOp, t, n)]
    case Sub => if n == 0 then [] else [AluImm(SubOp, t, n)]
    case Mul => if n == 1 then [] else if IsPow2(n) then [ShlImm(t, Log2(n))] else [ImulImm(t, n)]
    case _ => [AluImm(CmpOp, t, n)]
  }

  function AluRRCode(op: BinOp, dst: Reg, src: Reg): Instr {
    match op
    case Add => AluRR(AddOp, dst, src)
    case Sub => AluRR(SubOp, dst, src)
    case Mul => ImulRR(dst, src)
    case _ => AluRR(CmpOp, dst, src)
  }

  function CompareCC(op: BinOp): int {
    if op.Less? then CC_L else if op.LessEq? then CC_LE else CC_E
  }

  /** Code of e into register t (its address, for lvalues when `addr`), with k
      saved and j scratch registers reserved and d words pushed. */
  function Code(e: Expr, t: Reg, addr: bool, k: nat, j: nat, d: nat): seq<Instr>
    decreases e, 1
  {
    match e
    case Num(_) => LeafCode(e, t, addr)
    case Str(_) => LeafCode(e, t, addr)
    case Cell(_) => LeafCode(e, t, addr)
    case Arr(data, es) =>
      [MovImm64(Saved(k), data)] + ElemsCode(es, 0, Saved(k), k + 1, j, d) + Mov(t, Saved(k))
    case Index(b, i) =>
      Code(b, t, false, k, j, d)
      + (if SmallIndex(i) then (if i.n == 0 then [] else [AluImm(AddOp, t, 8 * i.n)])
         else if IsLeaf(i) then LeafCode(i, Scratch(j), false) + [LeaIdx8(t, t, Scratch(j))]
         else Mov(Saved(k), t) + Code(i, t, false, k + 1, j, d) + [LeaIdx8(t, Saved(k), t)])
      + (if addr then [] else [Load(t, t, 0)])
    case Assign(target, v) =>
      if target.Cell? then
        Code(v, t, false, k, j, d)
        + (if t == RAX then [StoreRaxAbs(target.addr)]
           else [MovImm64(Scratch(j), target.addr), Store(Scratch(j), 0, t)])
      else
        Code(target, t, true, k, j, d)
        + (if IsLeaf(v) then LeafCode(v, Scratch(j), false) + [Store(t, 0, Scratch(j))] + Mov(t, Scratch(j))
           else Mov(Saved(k), t) + Code(v, t, false, k + 1, j, d) + [Store(Saved(k), 0, t)])
    case AddAssign(target, v) =>
      Code(target, t, true, k, j, d)
      + (if IsLeaf(v) then LeafCode(v, Scratch(j), false) + [AddMem(t, 0, Scratch(j)), Load(t, t, 0)]
         else Mov(Saved(k), t) + Code(v, t, false, k + 1, j, d) + [AddMem(Saved(k), 0, t), Load(t, Saved(k), 0)])
    case Bin(op, l, r) =>
      BinCode(e, t, k, j, d)
      + (if IsCompare(op) then [SetCC(CompareCC(op), t), Movzx8(t, t)]
         else Mov(t, BinReg(r, t, k)))
    case Call(c, es) =>
      (if IsLeaf(c) then [] else Code(c, RAX, false, k, j, d) + [Push(RAX)])
      + PushArgs(es, k, j, if IsLeaf(c) then d else d + 1)
      + PopArgs(es, 0)
      + LeafArgs(es, 0)
      + (if IsLeaf(c) then LeafCode(c, R11, false) else [Pop(R11)])
      + CallCode(d)
      + Mov(t, RAX)
  }

  /** Where an arithmetic result is before it is moved to t. */
  function BinReg(r: Expr, t: Reg, k: nat): Reg { if IsLeaf(r) then t else Saved(k) }

  /** Both operands and the operation; a comparison only sets the flags. */
  function BinCode(e: Expr, t: Reg, k: nat, j: nat, d: nat): seq<Instr>
    requires e.Bin?
    decreases e, 0
  {
    Code(e.left, t, false, k, j, d)
    + (if SmallImm(e.right) then AluImmCode(e.op, t, e.right.n)
       else if IsLeaf(e.right) then
         LeafCode(e.right, Scratch(j), false) + [AluRRCode(e.op, t, Scratch(j))]
       else
         Mov(Saved(k), t) + Code(e.right, t, false, k + 1, j, d) + [AluRRCode(e.op, Saved(k), t)])
  }

  function ElemsCode(es: Exprs, i: nat, p: Reg, k: nat, j: nat, d: nat): seq<Instr>
    decreases es, 0
  {
    match es
    case Nil => []
    case Cons(h, t) =>
      (if SmallImm(h) then [StoreImm(p, Disp(i), h.n)]
       else Code(h, Scratch(j), false, k, j + 1, d) + [Store(p, Disp(i), Scratch(j))])
      + ElemsCode(t, i + 1, p, k, j, d)
  }

  /** Complex arguments in order, each pushed. */
  function PushArgs(es: Exprs, k: nat, j: nat, d: nat): seq<Instr>
    decreases es, 0
  {
    match es
    case Nil => []
    case Cons(h, t) =>
      if IsLeaf(h) then PushArgs(t, k, j, d)
      else Code(h, RAX, false, k, j, d) + [Push(RAX)] + PushArgs(t, k, j, d + 1)
  }

  /** Pops, last argument first; i is the number of the head argument. */
  function PopArgs(es: Exprs, i: nat): seq<Instr> {
    match es
    case Nil => []
    case Cons(h, t) => PopArgs(t, i + 1) + (if IsLeaf(h) then [] else [Pop(ArgReg(i))])
  }

  /** Leaf arguments straight into their registers. */
  function LeafArgs(es: Exprs, i: nat): seq<Instr> {
    match es
    case Nil => []
    case Cons(h, t) => (if IsLeaf(h) then LeafCode(h, ArgReg(i), false) else []) + LeafArgs(t, i + 1)
  }

  /** The call itself; RSP is realigned when an odd number of words is pushed. */
  function CallCode(d: nat): seq<Instr> {
    if d % 2 == 1 then
      [AluImm(SubOp, RSP, 8), Xor32(RAX, RAX), CallReg(R11), AluImm(AddOp, RSP, 8)]
    else
      [Xor32(RAX, RAX), CallReg(R11)]
  }

  // ------------------------------------------------------------- statements

  function Negate(cc: int): int { if cc % 2 == 0 then cc + 1 else cc - 1 }

  /** Code of a condition, up to the branch. */
  function CondCode(c: Expr): seq<Instr> {
    if c.Bin? && IsCompare(c.op) then BinCode(c, RAX, 0, 0, 0)
    else Code(c, RAX, false, 0, 0, 0) + [TestRR(RAX, RAX)]
  }

  /** The condition code under which the branch skips. */
  function SkipCC(c: Expr): int {
    if c.Bin? && IsCompare(c.op) then Negate(CompareCC(c.op)) else CC_E
  }
}
