/** The instructions the generator emits, their bytes (the emit_* routines of
    src/codegen/x64codegen.c), and a decoder written from the instruction
    format of the Intel SDM, volume 2, sections 2.1.3 and 2.2.1. */
module Isa {
  import opened Words

  const RAX := 0
  const RCX := 1
  const RDX := 2
  const RBX := 3
  const RSP := 4
  const RBP := 5
  const RSI := 6
  const RDI := 7
  const R8 := 8
  const R9 := 9
  const R10 := 10
  const R11 := 11
  const R12 := 12
  const R13 := 13
  const R14 := 14
  const R15 := 15

  type Reg = r: int | 0 <= r < 16

  /** Low nibble of Jcc and SETcc. */
  const CC_E := 0x4
  const CC_NE := 0x5
  const CC_L := 0xC
  const CC_GE := 0xD
  const CC_LE := 0xE
  const CC_G := 0xF

  datatype AluOp = AddOp | SubOp | CmpOp

  datatype Instr =
    | MovRR(dst: Reg, src: Reg)
    | Load(dst: Reg, base: Reg, disp: int)
    | Store(base: Reg, disp: int, src: Reg)
    | StoreImm(base: Reg, disp: int, imm: int)
    | AddMem(base: Reg, disp: int, src: Reg)
    | LeaIdx8(dst: Reg, base: Reg, index: Reg)
    | MovImm64(dst: Reg, imm: int)
    | MovImm32(dst: Reg, imm: int)
    | MovSext32(dst: Reg, imm: int)
    | LoadRaxAbs(addr: int)
    | StoreRaxAbs(addr: int)
    | AluImm(op: AluOp, dst: Reg, imm: int)
    | AluRR(op: AluOp, dst: Reg, src: Reg)
    | TestRR(dst: Reg, src: Reg)
    | Xor32(dst: Reg, src: Reg)
    | ImulImm(dst: Reg, imm: int)
    | ImulRR(dst: Reg, src: Reg)
    | ShlImm(dst: Reg, imm: int)
    | SetCC(cc: int, dst: Reg)
    | Movzx8(dst: Reg, src: Reg)
    | Push(src: Reg)
    | Pop(dst: Reg)
    | CallReg(src: Reg)
    | Ret
    | Leave
    | Nop4
    | Jmp(rel: int)
    | Jcc(cc: int, rel: int)

  /** The operands fit their fields. */
  predicate Wf(i: Instr) {
    match i
    case Load(_, _, d) => I32(d)
    case Store(_, d, _) => I32(d)
    case StoreImm(_, d, m) => I32(d) && I32(m)
    case AddMem(_, d, _) => I32(d)
    case LeaIdx8(_, _, x) => x != RSP
    case MovImm64(_, m) => 0 <= m < TWO64
    case MovImm32(_, m) => 0 <= m < TWO32
    case MovSext32(_, m) => I32(m)
    case LoadRaxAbs(a) => 0 <= a < TWO64
    case StoreRaxAbs(a) => 0 <= a < TWO64
    case AluImm(_, _, m) => I32(m)
    case ImulImm(_, m) => I32(m)
    case ShlImm(_, n) => 0 <= n < 256
    case SetCC(cc, _) => 0 <= cc < 16
    case Jmp(r) => I32(r)
    case Jcc(cc, r) => 0 <= cc < 16 && I32(r)
    case _ => true
  }

  // ---------------------------------------------------------------- encoder

  function RexByte(w: bool, reg: Reg, idx: Reg, rm: Reg): byte {
    0x40 + (if w then 8 else 0) + (if reg >= 8 then 4 else 0)
         + (if idx >= 8 then 2 else 0) + (if rm >= 8 then 1 else 0)
  }

  /** The REX prefix, dropped when it would be the bare 0x40 unless forced. */
  function Rex(w: bool, reg: Reg, idx: Reg, rm: Reg, force: bool): (bs: seq<byte>)
    ensures |bs| <= 1
  {
    var rex := RexByte(w, reg, idx, rm);
    if rex != 0x40 || force then [rex] else []
  }

  function ModByte(mod: int, reg: int, rm: int): byte
    requires 0 <= mod < 4 && 0 <= reg < 16 && 0 <= rm < 16
  {
    mod * 64 + reg % 8 * 8 + rm % 8
  }

  function ModRR(reg: Reg, rm: Reg): (bs: seq<byte>)
    ensures |bs| == 1
  {
    [ModByte(3, reg, rm)]
  }

  function Imm32(x: int): (bs: seq<byte>)
    ensures |bs| == 4
  {
    LE(4, x % TWO32)
  }

  function Imm64(x: int): (bs: seq<byte>)
    ensures |bs| == 8
  {
    LE(8, x % TWO64)
  }

  function Imm8(x: int): (bs: seq<byte>)
    ensures |bs| == 1
  {
    [x % 256]
  }

  predicate Fits8(x: int) { -128 <= x <= 127 }

  function MemMod(base: Reg, disp: int): (mod: int)
    ensures 0 <= mod < 3
  {
    if disp == 0 && base % 8 != 5 then 0 else if Fits8(disp) then 1 else 2
  }

  /** ModRM, SIB and displacement of [base + disp]. */
  function ModMem(reg: Reg, base: Reg, disp: int): (bs: seq<byte>)
    ensures |bs| <= 6
  {
    var mod := MemMod(base, disp);
    [ModByte(mod, reg, base)]
    + (if base % 8 == 4 then [0x24] else [])
    + (if mod == 1 then Imm8(disp) else if mod == 2 then Imm32(disp) else [])
  }

  function EncRR(op: byte, reg: Reg, rm: Reg): (bs: seq<byte>)
    ensures |bs| == 3
  {
    Rex(true, reg, 0, rm, false) + [op] + ModRR(reg, rm)
  }

  function EncMem(op: byte, reg: Reg, base: Reg, disp: int): (bs: seq<byte>)
    ensures |bs| <= 8
  {
    Rex(true, reg, 0, base, false) + [op] + ModMem(reg, base, disp)
  }

  function AluExt(op: AluOp): Reg {
    match op case AddOp => 0 case SubOp => 5 case CmpOp => 7
  }

  function AluCode(op: AluOp): byte {
    match op case AddOp => 0x01 case SubOp => 0x29 case CmpOp => 0x39
  }

  function Encode(i: Instr): (bs: seq<byte>)
    ensures 0 < |bs| < 16
  {
    match i
    case MovRR(dst, src) => EncRR(0x89, src, dst)
    case Load(dst, base, disp) => EncMem(0x8B, dst, base, disp)
    case Store(base, disp, src) => EncMem(0x89, src, base, disp)
    case StoreImm(base, disp, imm) => EncMem(0xC7, 0, base, disp) + Imm32(imm)
    case AddMem(base, disp, src) => EncMem(0x01, src, base, disp)
    case LeaIdx8(dst, base, index) =>
      var mod := if base % 8 == 5 then 1 else 0;
      Rex(true, dst, index, base, false) + [0x8D, ModByte(mod, dst, 4), ModByte(3, index, base)]
      + (if mod == 1 then [0] else [])
    case MovImm64(dst, imm) => Rex(true, 0, 0, dst, false) + [0xB8 + dst % 8] + Imm64(imm)
    case MovImm32(dst, imm) => Rex(false, 0, 0, dst, false) + [0xB8 + dst % 8] + Imm32(imm)
    case MovSext32(dst, imm) => Rex(true, 0, 0, dst, false) + [0xC7] + ModRR(0, dst) + Imm32(imm)
    case LoadRaxAbs(addr) => [0x48, 0xA1] + Imm64(addr)
    case StoreRaxAbs(addr) => [0x48, 0xA3] + Imm64(addr)
    case AluImm(op, dst, imm) =>
      Rex(true, 0, 0, dst, false)
      + (if Fits8(imm) then [0x83] + ModRR(AluExt(op), dst) + Imm8(imm)
         else [0x81] + ModRR(AluExt(op), dst) + Imm32(imm))
    case AluRR(op, dst, src) => EncRR(AluCode(op), src, dst)
    case TestRR(dst, src) => EncRR(0x85, src, dst)
    case Xor32(dst, src) => Rex(false, src, 0, dst, false) + [0x31] + ModRR(src, dst)
    case ImulImm(dst, imm) => EncRR(0x69, dst, dst) + Imm32(imm)
    case ImulRR(dst, src) => Rex(true, dst, 0, src, false) + [0x0F, 0xAF] + ModRR(dst, src)
    case ShlImm(dst, n) => Rex(true, 0, 0, dst, false) + [0xC1] + ModRR(4, dst) + Imm8(n)
    case SetCC(cc, dst) => Rex(false, 0, 0, dst, dst >= 4) + [0x0F, 0x90 + cc % 16] + ModRR(0, dst)
    case Movzx8(dst, src) => Rex(true, dst, 0, src, false) + [0x0F, 0xB6] + ModRR(dst, src)
    case Push(src) => (if src >= 8 then [0x41] else []) + [0x50 + src % 8]
    case Pop(dst) => (if dst >= 8 then [0x41] else []) + [0x58 + dst % 8]
    case CallReg(src) => Rex(false, 0, 0, src, false) + [0xFF] + ModRR(2, src)
    case Ret => [0xC3]
    case Leave => [0xC9]
    case Nop4 => [0x0F, 0x1F, 0x40, 0x00]
    case Jmp(rel) => [0xE9] + Imm32(rel)
    case Jcc(cc, rel) => [0x0F, 0x80 + cc % 16] + Imm32(rel)
  }

  // ---------------------------------------------------------------- decoder

  /** REX prefix fields; `present` matters for byte registers. */
  datatype RexBits = RexBits(present: bool, w: bool, r: int, x: int, b: int)

  const NO_REX := RexBits(false, false, 0, 0, 0)

  function SplitRex(p: byte): RexBits
    requires 0x40 <= p < 0x50
  {
    RexBits(true, p / 8 % 2 == 1, p / 4 % 2 * 8, p / 2 % 2 * 8, p % 2 * 8)
  }

  predicate RexOk(x: RexBits) {
    x.r in {0, 8} && x.x in {0, 8} && x.b in {0, 8}
  }

  /** A memory operand [base + disp]: its register field, base, displacement
      and length. RIP-relative and indexed forms are never emitted. */
  datatype MemOp = MemOp(reg: Reg, base: Reg, disp: int, len: nat)

  function ReadI8(bs: seq<byte>, at: nat): Option<int> {
    if at < |bs| then Some(Signed8(bs[at])) else None
  }

  function ReadI32(bs: seq<byte>, at: nat): Option<int> {
    if at + 4 <= |bs| then Some(Signed32(UnLE(bs[at..at + 4]))) else None
  }

  function ReadU64(bs: seq<byte>, at: nat): Option<int> {
    if at + 8 <= |bs| then Some(UnLE(bs[at..at + 8])) else None
  }

  function DecodeMem(x: RexBits, bs: seq<byte>): (m: Option<MemOp>)
    requires RexOk(x)
    ensures m.Some? ==> m.value.len >= 1
  {
    if |bs| == 0 then None
    else
      var mod, reg, rm := bs[0] / 64, bs[0] / 8 % 8 + x.r, bs[0] % 8;
      var sib := if rm == 4 then 1 else 0;
      if sib == 1 && (|bs| < 2 || bs[1] != 0x24 || x.x != 0) then None
      else if mod == 0 then
        if rm == 5 then None else Some(MemOp(reg, rm + x.b, 0, 1 + sib))
      else if mod == 1 then
        match ReadI8(bs, 1 + sib)
        case Some(d) => Some(MemOp(reg, rm + x.b, d, 2 + sib))
        case None => None
      else if mod == 2 then
        match ReadI32(bs, 1 + sib)
        case Some(d) => Some(MemOp(reg, rm + x.b, d, 5 + sib))
        case None => None
      else None
  }

  /** Register-register ModRM byte at the head of bs: (reg, rm). */
  function DecodeRR(x: RexBits, bs: seq<byte>): Option<(Reg, Reg)>
    requires RexOk(x)
  {
    if |bs| > 0 && bs[0] / 64 == 3 then Some((bs[0] / 8 % 8 + x.r, bs[0] % 8 + x.b)) else None
  }

  /** op r/m64, r64 where the operand is a register or memory. */
  function DecodeRM(x: RexBits, op: byte, bs: seq<byte>): Option<(Instr, nat)>
    requires RexOk(x)
  {
    if !x.w then None
    else match DecodeRR(x, bs)
      case Some((reg, rm)) =>
        if op == 0x89 then Some((MovRR(rm, reg), 2))
        else if op == 0x01 then Some((AluRR(AddOp, rm, reg), 2))
        else if op == 0x29 then Some((AluRR(SubOp, rm, reg), 2))
        else if op == 0x39 then Some((AluRR(CmpOp, rm, reg), 2))
        else if op == 0x85 then Some((TestRR(rm, reg), 2))
        else None
      case None =>
        match DecodeMem(x, bs)
        case Some(m) =>
          if op == 0x89 then Some((Store(m.base, m.disp, m.reg), 1 + m.len))
          else if op == 0x01 then Some((AddMem(m.base, m.disp, m.reg), 1 + m.len))
          else if op == 0x8B then Some((Load(m.reg, m.base, m.disp), 1 + m.len))
          else None
        case None => None
  }

  /** mov r/m64, simm32 (C7 /0). */
  function DecodeMovImm(x: RexBits, bs: seq<byte>): Option<(Instr, nat)>
    requires RexOk(x)
  {
    if !x.w then None
    else match DecodeRR(x, bs)
      case Some((reg, rm)) =>
        (match ReadI32(bs, 1)
         case Some(i) => if reg == 0 then Some((MovSext32(rm, i), 6)) else None
         case None => None)
      case None =>
        match DecodeMem(x, bs)
        case None => None
        case Some(m) =>
          match ReadI32(bs, m.len)
          case Some(i) => if m.reg == 0 then Some((StoreImm(m.base, m.disp, i), 5 + m.len)) else None
          case None => None
  }

  /** group 1, opcodes 83 and 81. */
  function DecodeGroup1(x: RexBits, op: byte, bs: seq<byte>): Option<(Instr, nat)>
    requires RexOk(x)
  {
    match DecodeRR(x, bs)
    case None => None
    case Some((ext, rm)) =>
      var imm := if op == 0x83 then ReadI8(bs, 1) else ReadI32(bs, 1);
      var len := if op == 0x83 then 3 else 6;
      if imm.None? || !x.w then None
      else if ext == 0 then Some((AluImm(AddOp, rm, imm.value), len))
      else if ext == 5 then Some((AluImm(SubOp, rm, imm.value), len))
      else if ext == 7 then Some((AluImm(CmpOp, rm, imm.value), len))
      else None
  }

  /** lea r64, [base + index*8] with a zero displacement. */
  function DecodeLea(x: RexBits, bs: seq<byte>): Option<(Instr, nat)>
    requires RexOk(x)
  {
    if |bs| < 2 || !x.w || bs[0] % 8 != 4 || bs[1] / 64 != 3 then None
    else
      var mod, dst := bs[0] / 64, bs[0] / 8 % 8 + x.r;
      var index, base := bs[1] / 8 % 8 + x.x, bs[1] % 8 + x.b;
      if index == RSP then None
      else if mod == 0 then (if bs[1] % 8 == 5 then None else Some((LeaIdx8(dst, base, index), 3)))
      else if mod == 1 && |bs| > 2 && bs[2] == 0 then Some((LeaIdx8(dst, base, index), 4))
      else None
  }

  /** Two-byte opcodes, after the 0F. */
  function Decode0F(x: RexBits, bs: seq<byte>): Option<(Instr, nat)>
    requires RexOk(x)
  {
    if |bs| == 0 then None
    else if 0x80 <= bs[0] < 0x90 then
      match ReadI32(bs, 1)
      case Some(r) => Some((Jcc(bs[0] - 0x80, r), 6))
      case None => None
    else if bs[0] == 0x1F then
      if |bs| >= 3 && bs[1] == 0x40 && bs[2] == 0 then Some((Nop4, 4)) else None
    else match DecodeRR(x, bs[1..])
      case None => None
      case Some((reg, rm)) =>
        if bs[0] == 0xAF && x.w then Some((ImulRR(reg, rm), 3))
        else if bs[0] == 0xB6 && x.w then Some((Movzx8(reg, rm), 3))
        else if 0x90 <= bs[0] < 0xA0 && reg == 0 && (x.present || rm < 4) then
          // without a REX prefix, byte registers 4..7 are AH, CH, DH, BH
          Some((SetCC(bs[0] - 0x90, rm), 3))
        else None
  }

  function DecodeOp(x: RexBits, bs: seq<byte>): Option<(Instr, nat)>
    requires RexOk(x)
  {
    if |bs| == 0 then None
    else
      var op, rest := bs[0], bs[1..];
      if op in {0x01, 0x29, 0x39, 0x85, 0x89, 0x8B} then DecodeRM(x, op, rest)
      else if op == 0xC7 then DecodeMovImm(x, rest)
      else if op in {0x81, 0x83} then DecodeGroup1(x, op, rest)
      else if op == 0x8D then DecodeLea(x, rest)
      else if op == 0x0F then Decode0F(x, rest)
      else if 0x50 <= op < 0x58 then Some((Push(op - 0x50 + x.b), 1))
      else if 0x58 <= op < 0x60 then Some((Pop(op - 0x58 + x.b), 1))
      else if 0xB8 <= op < 0xC0 then
        if x.w then
          match ReadU64(rest, 0)
          case Some(i) => Some((MovImm64(op - 0xB8 + x.b, i), 9))
          case None => None
        else if |rest| >= 4 then Some((MovImm32(op - 0xB8 + x.b, UnLE(rest[0..4])), 5))
        else None
      else if op in {0xA1, 0xA3} then
        match ReadU64(rest, 0)
        case Some(a) =>
          if !x.w then None else Some((if op == 0xA1 then LoadRaxAbs(a) else StoreRaxAbs(a), 9))
        case None => None
      else if op == 0xE9 then
        match ReadI32(rest, 0)
        case Some(r) => Some((Jmp(r), 5))
        case None => None
      else if op == 0xC3 then Some((Ret, 1))
      else if op == 0xC9 then Some((Leave, 1))
      else match DecodeRR(x, rest)
        case None => None
        case Some((reg, rm)) =>
          if op == 0x31 && !x.w then Some((Xor32(rm, reg), 2))
          else if op == 0xFF && reg == 2 then Some((CallReg(rm), 2))
          else if op == 0xC1 && reg == 4 && x.w && |rest| > 1 then Some((ShlImm(rm, rest[1]), 3))
          else if op == 0x69 && reg == rm && x.w then
            match ReadI32(rest, 1)
            case Some(i) => Some((ImulImm(rm, i), 6))
            case None => None
          else None
  }

  /** The instruction at the head of bs and its length in bytes. */
  function Decode(bs: seq<byte>): Option<(Instr, nat)> {
    if |bs| == 0 then None
    else if 0x40 <= bs[0] < 0x50 then
      match DecodeOp(SplitRex(bs[0]), bs[1..])
      case Some((i, n)) => Some((i, n + 1))
      case None => None
    else DecodeOp(NO_REX, bs)
  }

}
