/** The part of the x86-64 machine the generated code uses: sixteen registers,
    the flags, byte memory, and a stack region of 8-byte slots. */
module Machine {
  import opened Words
  import opened Isa

  type Mem = map<int, byte>

  /** Flags are Undefined where the model does not say what they hold; branching
      on them then is a fault. */
  datatype Flags = Undefined | Flags(zf: bool, sf: bool, of: bool)

  datatype State = State(regs: seq<u64>, mem: Mem, stk: map<int, u64>, flags: Flags)

  /** What surrounds the code: the stack region [lo, hi), and the functions that
      a call may reach. A callee takes arity(f) arguments (its SysV registers),
      returns a value and a new memory, and leaves anything at all in the
      caller-saved registers and in the stack below the caller's RSP. */
  datatype World = World(
    lo: int, hi: int,
    arity: u64 -> nat,
    result: (u64, seq<u64>, Mem) -> u64,
    effect: (u64, seq<u64>, Mem) -> Mem,
    junkReg: (State, int) -> u64,
    junkStk: (State, int) -> u64)

  predicate GoodWorld(W: World) { 0 <= W.lo <= W.hi < TWO64 }

  // ----------------------------------------------------------------- memory

  function ByteAt(m: Mem, a: int): byte { if a in m then m[a] else 0 }

  function ReadBytes(m: Mem, a: int, n: nat): (bs: seq<byte>)
    ensures |bs| == n
    decreases n
  {
    if n == 0 then [] else [ByteAt(m, a)] + ReadBytes(m, a + 1, n - 1)
  }

  function WriteBytes(m: Mem, a: int, bs: seq<byte>): Mem
    decreases |bs|
  {
    if bs == [] then m else WriteBytes(m, a + 1, bs[1..])[a := bs[0]]
  }

  function Load64(m: Mem, a: int): u64 {
    Pow256Values();
    UnLE(ReadBytes(m, a, 8))
  }

  function Store64(m: Mem, a: int, v: u64): Mem { WriteBytes(m, a, LE(8, v)) }

  lemma {:induction false} WriteBelow(m: Mem, a: int, bs: seq<byte>, x: int)
    requires x < a || a + |bs| <= x
    ensures ByteAt(WriteBytes(m, a, bs), x) == ByteAt(m, x)
    decreases |bs|
  {
    if bs != [] {
      WriteBelow(m, a + 1, bs[1..], x);
    }
  }

  lemma {:induction false} ReadSame(m: Mem, m': Mem, a: int, n: nat)
    requires forall x :: a <= x < a + n ==> ByteAt(m, x) == ByteAt(m', x)
    ensures ReadBytes(m, a, n) == ReadBytes(m', a, n)
    decreases n
  {
    if n > 0 {
      ReadSame(m, m', a + 1, n - 1);
    }
  }

  lemma {:induction false} ReadWrite(m: Mem, a: int, bs: seq<byte>)
    ensures ReadBytes(WriteBytes(m, a, bs), a, |bs|) == bs
    decreases |bs|
  {
    if bs != [] {
      var inner := WriteBytes(m, a + 1, bs[1..]);
      ReadWrite(m, a + 1, bs[1..]);
      ReadSame(inner, inner[a := bs[0]], a + 1, |bs| - 1);
      assert bs == [bs[0]] + bs[1..];
    }
  }

  /** A word that was stored reads back, and words that do not overlap it keep
      their values. */
  lemma LoadStore(m: Mem, a: int, v: u64, b: int)
    ensures Load64(Store64(m, a, v), a) == v
    ensures a + 8 <= b || b + 8 <= a ==> Load64(Store64(m, a, v), b) == Load64(m, b)
  {
    hide LE, UnLE, Pow256, WriteBytes, ReadBytes;
    Pow256Values();
    ReadWrite(m, a, LE(8, v));
    UnLELE(8, v);
    if a + 8 <= b || b + 8 <= a {
      forall x | b <= x < b + 8
        ensures ByteAt(Store64(m, a, v), x) == ByteAt(m, x)
      {
        WriteBelow(m, a, LE(8, v), x);
      }
      ReadSame(m, Store64(m, a, v), b, 8);
    }
  }

  /** A slot of the stack region. */
  predicate InStack(W: World, a: int) { W.lo <= a && a + 8 <= W.hi && a % 8 == 0 }

  /** A word of program data: no byte of it lies in the stack region. */
  predicate DataOk(W: World, a: int) { 0 <= a && a + 8 <= TWO64 && (a + 8 <= W.lo || W.hi <= a) }

  function Slot(stk: map<int, u64>, a: int): u64 { if a in stk then stk[a] else 0 }

  function MemRead(W: World, s: State, a: int): Option<u64> {
    if InStack(W, a) then Some(Slot(s.stk, a))
    else if DataOk(W, a) then Some(Load64(s.mem, a))
    else None
  }

  function MemWrite(W: World, s: State, a: int, v: u64): Option<State> {
    if InStack(W, a) then Some(s.(stk := s.stk[a := v]))
    else if DataOk(W, a) then Some(s.(mem := Store64(s.mem, a, v)))
    else None
  }

  // ------------------------------------------------------------------ flags

  /** ZF, SF and OF after comparing a with b. */
  function CmpFlags(a: u64, b: u64): Flags {
    var d := Signed64(a) - Signed64(b);
    Flags(a == b, Sub64(a, b) >= TWO63, !(-TWO63 <= d < TWO63))
  }

  function Cond(cc: int, f: Flags): Option<bool> {
    if f.Undefined? then None
    else if cc == CC_E then Some(f.zf)
    else if cc == CC_NE then Some(!f.zf)
    else if cc == CC_L then Some(f.sf != f.of)
    else if cc == CC_GE then Some(f.sf == f.of)
    else if cc == CC_LE then Some(f.zf || f.sf != f.of)
    else if cc == CC_G then Some(!(f.zf || f.sf != f.of))
    else None
  }

  /** The six conditions mean equality, the signed comparisons and their
      opposites. */
  lemma CondMeaning(a: u64, b: u64)
    ensures Cond(CC_E, CmpFlags(a, b)) == Some(a == b)
    ensures Cond(CC_L, CmpFlags(a, b)) == Some(Signed64(a) < Signed64(b))
    ensures Cond(CC_LE, CmpFlags(a, b)) == Some(Signed64(a) <= Signed64(b))
    ensures Cond(CC_NE, CmpFlags(a, b)) == Some(a != b)
    ensures Cond(CC_GE, CmpFlags(a, b)) == Some(Signed64(a) >= Signed64(b))
    ensures Cond(CC_G, CmpFlags(a, b)) == Some(Signed64(a) > Signed64(b))
  {}

  // ------------------------------------------------------------------- steps

  /** base + index * 8: every array slot is a size_t. */
  function Scaled(base: int, index: int): u64 { Wrap(base + 8 * index) }

  predicate Good16(s: State) { |s.regs| == 16 }

  function Ea(s: State, base: Reg, disp: int): int
    requires Good16(s)
  {
    Add64(s.regs[base], disp)
  }

  function SetReg(s: State, r: Reg, v: u64): (s': State)
    requires Good16(s)
    ensures Good16(s')
  {
    s.(regs := s.regs[r := v])
  }

  function AluStep(op: AluOp, s: State, dst: Reg, b: u64): (s': State)
    requires Good16(s)
    ensures Good16(s')
  {
    match op
    case AddOp => SetReg(s, dst, Add64(s.regs[dst], b)).(flags := Undefined)
    case SubOp => SetReg(s, dst, Sub64(s.regs[dst], b)).(flags := Undefined)
    case CmpOp => s.(flags := CmpFlags(s.regs[dst], b))
  }

  /** Where a SysV callee looks for its integer arguments. */
  function AbiReg(i: int): Reg {
    match i
    case 0 => RDI
    case 1 => RSI
    case 2 => RDX
    case 3 => RCX
    case 4 => R8
    case 5 => R9
    case _ => RAX
  }

  predicate CalleeSaved(r: int) { r in {RBX, RBP, RSP, R12, R13, R14, R15} }

  /** What a callee with n arguments receives. */
  function ArgVals(s: State, n: nat): (vs: seq<u64>)
    requires Good16(s)
    ensures |vs| == n
  {
    seq(n, i => s.regs[AbiReg(i)])
  }

  /** A call that returns: RSP must be 16-byte aligned at the call, and the
      return address needs a slot below it. */
  function CallStep(W: World, s: State, f: u64): (r: Option<State>)
    requires Good16(s)
    ensures r.Some? ==> Good16(r.value)
  {
    var rsp := s.regs[RSP];
    if rsp % 16 != 0 || !InStack(W, Sub64(rsp, 8)) then None
    else
      var args := ArgVals(s, W.arity(f));
      Some(State(
        seq(16, i requires 0 <= i < 16 =>
          if i == RAX then W.result(f, args, s.mem)
          else if CalleeSaved(i) then s.regs[i]
          else W.junkReg(s, i)),
        W.effect(f, args, s.mem),
        s.stk + (map a | W.lo <= a < rsp :: W.junkStk(s, a)),
        Undefined))
  }

  /** One instruction that is not a jump; None is a fault. */
  function Step(W: World, i: Instr, s: State): (r: Option<State>)
    requires Good16(s)
    ensures r.Some? ==> Good16(r.value)
  {
    match i
    case MovRR(dst, src) => Some(SetReg(s, dst, s.regs[src]))
    case Load(dst, base, disp) =>
      (match MemRead(W, s, Ea(s, base, disp))
       case Some(v) => Some(SetReg(s, dst, v))
       case None => None)
    case Store(base, disp, src) => MemWrite(W, s, Ea(s, base, disp), s.regs[src])
    case StoreImm(base, disp, imm) => MemWrite(W, s, Ea(s, base, disp), Wrap(imm))
    case AddMem(base, disp, src) =>
      (match MemRead(W, s, Ea(s, base, disp))
       case Some(v) => MemWrite(W, s.(flags := Undefined), Ea(s, base, disp), Add64(v, s.regs[src]))
       case None => None)
    case LeaIdx8(dst, base, index) => Some(SetReg(s, dst, Scaled(s.regs[base], s.regs[index])))
    case MovImm64(dst, imm) => Some(SetReg(s, dst, Wrap(imm)))
    case MovImm32(dst, imm) => Some(SetReg(s, dst, Wrap(imm)))
    case MovSext32(dst, imm) => Some(SetReg(s, dst, Wrap(imm)))
    case LoadRaxAbs(addr) =>
      (match MemRead(W, s, addr)
       case Some(v) => Some(SetReg(s, RAX, v))
       case None => None)
    case StoreRaxAbs(addr) => MemWrite(W, s, addr, s.regs[RAX])
    case AluImm(op, dst, imm) => Some(AluStep(op, s, dst, Wrap(imm)))
    case AluRR(op, dst, src) => Some(AluStep(op, s, dst, s.regs[src]))
    case TestRR(dst, src) =>
      if dst == src then Some(s.(flags := CmpFlags(s.regs[dst], 0))) else None
    case Xor32(dst, src) =>
      if dst == src then Some(SetReg(s, dst, 0).(flags := Undefined)) else None
    case ImulImm(dst, imm) => Some(SetReg(s, dst, Mul64(s.regs[dst], imm)).(flags := Undefined))
    case ImulRR(dst, src) => Some(SetReg(s, dst, Mul64(s.regs[dst], s.regs[src])).(flags := Undefined))
    case ShlImm(dst, n) => Some(SetReg(s, dst, Mul64(s.regs[dst], Pow2(n % 64))).(flags := Undefined))
    case SetCC(cc, dst) =>
      (match Cond(cc, s.flags)
       case Some(b) => Some(SetReg(s, dst, s.regs[dst] - s.regs[dst] % 256 + if b then 1 else 0))
       case None => None)
    case Movzx8(dst, src) => Some(SetReg(s, dst, s.regs[src] % 256))
    case Push(src) =>
      var a := Sub64(s.regs[RSP], 8);
      if InStack(W, a) then Some(SetReg(s, RSP, a).(stk := s.stk[a := s.regs[src]])) else None
    case Pop(dst) =>
      var a := s.regs[RSP];
      if InStack(W, a) then Some(SetReg(SetReg(s, RSP, Add64(a, 8)), dst, Slot(s.stk, a))) else None
    case CallReg(src) => CallStep(W, s, s.regs[src])
    case Leave =>
      var a := s.regs[RBP];
      if InStack(W, a) then Some(SetReg(SetReg(s, RSP, Add64(a, 8)), RBP, Slot(s.stk, a))) else None
    case Nop4 => Some(s)
    case Ret => None
    case Jmp(_) => None
    case Jcc(_, _) => None
  }

  /** A straight run of instructions. */
  function Run(W: World, code: seq<Instr>, s: State): (r: Option<State>)
    requires Good16(s)
    ensures r.Some? ==> Good16(r.value)
  {
    if code == [] then Some(s)
    else match Step(W, code[0], s)
      case Some(s') => Run(W, code[1..], s')
      case None => None
  }

  lemma {:induction false} RunConcat(W: World, a: seq<Instr>, b: seq<Instr>, s: State)
    requires Good16(s)
    ensures Run(W, a + b, s) == match Run(W, a, s) case Some(s') => Run(W, b, s') case None => None
  {
    hide Step;
    if a == [] {
      assert a + b == b;
    } else {
      assert (a + b)[1..] == a[1..] + b;
      match Step(W, a[0], s)
      case Some(s') => RunConcat(W, a[1..], b, s');
      case None =>
    }
  }

  lemma RunOne(W: World, i: Instr, s: State)
    requires Good16(s)
    ensures Run(W, [i], s) == Step(W, i, s)
  {
    hide Step;
    assert [i][1..] == [];
  }

  // --------------------------------------------- running the bytes themselves

  /** Executing at byte offset rip of the code, or gone back to the caller's
      return address. */
  datatype Cfg = At(rip: int, s: State) | Returned(addr: u64, s: State)

  /** Fetch, decode, execute. */
  function StepAt(W: World, code: seq<byte>, c: Cfg): (r: Option<Cfg>)
    requires Good16(c.s)
    ensures r.Some? ==> Good16(r.value.s)
  {
    if c.Returned? || !(0 <= c.rip <= |code|) then None
    else match Decode(code[c.rip..])
      case None => None
      case Some((i, n)) =>
        match i
        case Jmp(rel) => Some(At(c.rip + n + rel, c.s))
        case Jcc(cc, rel) =>
          (match Cond(cc, c.s.flags)
           case Some(b) => Some(At(c.rip + n + (if b then rel else 0), c.s))
           case None => None)
        case Ret =>
          var a := c.s.regs[RSP];
          if InStack(W, a) then Some(Returned(Slot(c.s.stk, a), SetReg(c.s, RSP, Add64(a, 8)))) else None
        case _ =>
          match Step(W, i, c.s)
          case Some(s') => Some(At(c.rip + n, s'))
          case None => None
  }

  function Steps(W: World, code: seq<byte>, c: Cfg, n: nat): (r: Option<Cfg>)
    requires Good16(c.s)
    ensures r.Some? ==> Good16(r.value.s)
    decreases n
  {
    if n == 0 then Some(c)
    else match StepAt(W, code, c)
      case Some(c') => Steps(W, code, c', n - 1)
      case None => None
  }

  lemma {:induction false} StepsAdd(W: World, code: seq<byte>, c: Cfg, m: nat, n: nat)
    requires Good16(c.s)
    ensures Steps(W, code, c, m + n)
         == match Steps(W, code, c, m) case Some(c') => Steps(W, code, c', n) case None => None
    decreases m
  {
    hide StepAt;
    if m > 0 {
      match StepAt(W, code, c)
      case Some(c') => StepsAdd(W, code, c', m - 1, n);
      case None =>
    }
  }
}
