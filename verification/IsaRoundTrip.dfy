/** Encoder and decoder undo each other. */
module IsaRoundTrip {
  import opened Words
  import opened Isa

  lemma Imm32Read(x: int, pre: seq<byte>, rest: seq<byte>)
    requires I32(x)
    ensures ReadI32(pre + Imm32(x) + rest, |pre|) == Some(x)
  {
    var bs := pre + Imm32(x) + rest;
    assert bs[|pre|..|pre| + 4] == Imm32(x);
    Pow256Values();
    UnLELE(4, x % TWO32);
  }

  lemma Imm64Read(x: int, rest: seq<byte>)
    requires 0 <= x < TWO64
    ensures ReadU64(Imm64(x) + rest, 0) == Some(x)
  {
    var bs := Imm64(x) + rest;
    assert bs[0..8] == Imm64(x);
    Pow256Values();
    UnLELE(8, x);
  }

  lemma Imm8Read(x: int)
    requires Fits8(x)
    ensures Signed8(x % 256) == x
  {}

  /** The REX bits recovered from a prefix, or from its absence. */
  function RexOf(bs: seq<byte>): RexBits
    requires |bs| <= 1
    requires |bs| == 1 ==> 0x40 <= bs[0] < 0x50
  {
    if |bs| == 1 then SplitRex(bs[0]) else NO_REX
  }

  lemma RexBack(w: bool, reg: Reg, idx: Reg, rm: Reg, force: bool)
    ensures var p := Rex(w, reg, idx, rm, force);
            |p| == 1 ==> 0x40 <= p[0] < 0x50
    ensures var x := RexOf(Rex(w, reg, idx, rm, force));
            x.w == w && x.r == reg / 8 * 8 && x.x == idx / 8 * 8 && x.b == rm / 8 * 8
            && (force ==> x.present)
  {}

  /** Decoding past an optional REX prefix. */
  lemma DecodeRex(p: seq<byte>, op: byte, rest: seq<byte>)
    requires |p| <= 1 && (|p| == 1 ==> 0x40 <= p[0] < 0x50)
    requires !(0x40 <= op < 0x50)
    ensures Decode(p + [op] + rest)
         == match DecodeOp(RexOf(p), [op] + rest)
            case Some((i, n)) => Some((i, n + |p|))
            case None => None
  {
    if |p| == 1 {
      assert (p + [op] + rest)[1..] == [op] + rest;
    } else {
      assert p + [op] + rest == [op] + rest;
    }
  }

  lemma ModByteBack(mod: int, reg: Reg, rm: Reg)
    requires 0 <= mod < 4
    ensures var m := ModByte(mod, reg, rm);
            m / 64 == mod && m / 8 % 8 == reg % 8 && m % 8 == rm % 8
  {
    var m, a, b := ModByte(mod, reg, rm) as int, reg % 8, rm % 8;
    assert m == 8 * (8 * mod + a) + b;
    assert m / 8 == 8 * mod + a && m % 8 == b;
    assert m / 64 == mod;
  }

  lemma RRBack(x: RexBits, reg: Reg, rm: Reg, rest: seq<byte>)
    requires RexOk(x) && x.r == reg / 8 * 8 && x.b == rm / 8 * 8
    ensures DecodeRR(x, ModRR(reg, rm) + rest) == Some((reg, rm))
  {
    ModByteBack(3, reg, rm);
  }

  lemma MemBack(x: RexBits, reg: Reg, base: Reg, disp: int, rest: seq<byte>)
    requires RexOk(x) && x.r == reg / 8 * 8 && x.b == base / 8 * 8 && x.x == 0 && I32(disp)
    ensures var enc := ModMem(reg, base, disp);
            DecodeRR(x, enc + rest) == None
            && DecodeMem(x, enc + rest) == Some(MemOp(reg, base, disp, |enc|))
  {
    var mod := MemMod(base, disp);
    ModByteBack(mod, reg, base);
    var sib: seq<byte> := if base % 8 == 4 then [0x24] else [];
    var head := [ModByte(mod, reg, base)] + sib;
    var enc := ModMem(reg, base, disp);
    if mod == 1 {
      assert enc + rest == head + Imm8(disp) + rest;
      Imm8Read(disp);
    } else if mod == 2 {
      Imm32Read(disp, head, rest);
      assert enc + rest == head + Imm32(disp) + rest;
    }
  }

  lemma MemOpBack(i: Instr, op: byte, reg: Reg, base: Reg, disp: int, rest: seq<byte>)
    requires I32(disp)
    requires (op == 0x8B && i == Load(reg, base, disp))
          || (op == 0x89 && i == Store(base, disp, reg))
          || (op == 0x01 && i == AddMem(base, disp, reg))
    ensures Decode(Encode(i) + rest) == Some((i, |Encode(i)|))
  {
    assert Encode(i) == EncMem(op, reg, base, disp);
    hide Encode;
    var p, m := Rex(true, reg, 0, base, false), ModMem(reg, base, disp);
    RexBack(true, reg, 0, base, false);
    assert EncMem(op, reg, base, disp) + rest == p + [op] + (m + rest);
    DecodeRex(p, op, m + rest);
    assert ([op] + (m + rest))[1..] == m + rest;
    MemBack(RexOf(p), reg, base, disp, rest);
  }

  lemma StoreImmBack(base: Reg, disp: int, imm: int, rest: seq<byte>)
    requires I32(disp) && I32(imm)
    ensures var i := StoreImm(base, disp, imm); Decode(Encode(i) + rest) == Some((i, |Encode(i)|))
  {
    hide Imm32, LE, UnLE, ModMem, ReadI32, DecodeMem, Rex, SplitRex;
    var p, m := Rex(true, 0, 0, base, false), ModMem(0, base, disp);
    RexBack(true, 0, 0, base, false);
    var after := Imm32(imm) + rest;
    var tail := m + after;
    assert Encode(StoreImm(base, disp, imm)) + rest == p + [0xC7] + tail;
    DecodeRex(p, 0xC7, tail);
    assert ([0xC7] + tail)[1..] == tail;
    MovImmRead(RexOf(p), base, disp, imm, rest);
  }

  lemma MovImmRead(x: RexBits, base: Reg, disp: int, imm: int, rest: seq<byte>)
    requires RexOk(x) && x.w && x.r == 0 && x.b == base / 8 * 8 && x.x == 0 && I32(disp) && I32(imm)
    ensures var m := ModMem(0, base, disp);
            DecodeMovImm(x, m + (Imm32(imm) + rest)) == Some((StoreImm(base, disp, imm), 5 + |m|))
  {
    hide Imm32, LE, UnLE, ModMem, ReadI32, DecodeMem;
    var m := ModMem(0, base, disp);
    MemBack(x, 0, base, disp, Imm32(imm) + rest);
    Imm32Read(imm, m, rest);
    assert m + (Imm32(imm) + rest) == m + Imm32(imm) + rest;
  }

  /** One-byte opcodes with a register-register ModRM byte and w set or clear. */
  lemma RROpBack(w: bool, op: byte, reg: Reg, rm: Reg, rest: seq<byte>) returns (x: RexBits, tail: seq<byte>)
    requires !(0x40 <= op < 0x50)
    ensures tail == ModRR(reg, rm) + rest
    ensures RexOk(x) && x.w == w && x.r == reg / 8 * 8 && x.b == rm / 8 * 8
    ensures DecodeRR(x, tail) == Some((reg, rm))
    ensures Decode(Rex(w, reg, 0, rm, false) + [op] + ModRR(reg, rm) + rest)
         == match DecodeOp(x, [op] + tail)
            case Some((i, n)) => Some((i, n + |Rex(w, reg, 0, rm, false)|))
            case None => None
    ensures ([op] + tail)[0] == op && ([op] + tail)[1..] == tail
  {
    var p := Rex(w, reg, 0, rm, false);
    RexBack(w, reg, 0, rm, false);
    x, tail := RexOf(p), ModRR(reg, rm) + rest;
    assert p + [op] + ModRR(reg, rm) + rest == p + [op] + tail;
    DecodeRex(p, op, tail);
    RRBack(x, reg, rm, rest);
  }

  lemma RMOpBack(i: Instr, rest: seq<byte>)
    requires i.MovRR? || i.AluRR? || i.TestRR?
    ensures Decode(Encode(i) + rest) == Some((i, |Encode(i)|))
  {
    var op: byte := if i.MovRR? then 0x89 else if i.AluRR? then AluCode(i.op) else 0x85;
    assert Encode(i) == EncRR(op, i.src, i.dst);
    hide Encode, Decode, Rex, ModRR, DecodeRR;
    var x, tail := RROpBack(true, op, i.src, i.dst, rest);
    assert DecodeRM(x, op, tail) == Some((i, 2));
    assert DecodeOp(x, [op] + tail) == DecodeRM(x, op, tail);
  }

  lemma Xor32Back(dst: Reg, src: Reg, rest: seq<byte>)
    ensures var i := Xor32(dst, src); Decode(Encode(i) + rest) == Some((i, |Encode(i)|))
  {
    hide Decode, Rex, ModRR, DecodeRR;
    var x, tail := RROpBack(false, 0x31, src, dst, rest);
  }

  lemma CallBack(src: Reg, rest: seq<byte>)
    ensures var i := CallReg(src); Decode(Encode(i) + rest) == Some((i, |Encode(i)|))
  {
    assert Rex(false, 2, 0, src, false) == Rex(false, 0, 0, src, false);
    hide Decode, Rex, ModRR, DecodeRR;
    var x, tail := RROpBack(false, 0xFF, 2, src, rest);
  }

  lemma MovSextBack(dst: Reg, imm: int, rest: seq<byte>)
    requires I32(imm)
    ensures var i := MovSext32(dst, imm); Decode(Encode(i) + rest) == Some((i, |Encode(i)|))
  {
    hide Imm32, ReadI32, ModRR, Rex, DecodeRR;
    var x, tail := RROpBack(true, 0xC7, 0, dst, Imm32(imm) + rest);
    Imm32Read(imm, ModRR(0, dst), rest);
    assert tail == ModRR(0, dst) + Imm32(imm) + rest;
    assert Encode(MovSext32(dst, imm)) + rest
        == Rex(true, 0, 0, dst, false) + [0xC7] + ModRR(0, dst) + (Imm32(imm) + rest);
  }

  lemma AluImm8Back(op: AluOp, dst: Reg, imm: int, rest: seq<byte>)
    requires Fits8(imm)
    ensures var i := AluImm(op, dst, imm); Decode(Encode(i) + rest) == Some((i, |Encode(i)|))
  {
    var ext := AluExt(op);
    assert Rex(true, ext, 0, dst, false) == Rex(true, 0, 0, dst, false);
    hide Decode, Rex, DecodeRR;
    var x, tail := RROpBack(true, 0x83, ext, dst, Imm8(imm) + rest);
    Imm8Read(imm);
    assert tail[1] == imm % 256;
    assert DecodeGroup1(x, 0x83, tail) == Some((AluImm(op, dst, imm), 3));
    assert Encode(AluImm(op, dst, imm)) + rest
        == Rex(true, ext, 0, dst, false) + [0x83] + ModRR(ext, dst) + (Imm8(imm) + rest);
  }

  lemma AluImm32Back(op: AluOp, dst: Reg, imm: int, rest: seq<byte>)
    requires I32(imm) && !Fits8(imm)
    ensures var i := AluImm(op, dst, imm); Decode(Encode(i) + rest) == Some((i, |Encode(i)|))
  {
    var i, ext := AluImm(op, dst, imm), AluExt(op);
    var p := Rex(true, ext, 0, dst, false);
    assert p == Rex(true, 0, 0, dst, false);
    assert Encode(i) == p + ([0x81] + ModRR(ext, dst) + Imm32(imm));
    hide Encode, Decode, Imm32, ReadI32, Rex, DecodeRR, ModRR;
    var x, tail := RROpBack(true, 0x81, ext, dst, Imm32(imm) + rest);
    assert Encode(i) + rest == p + [0x81] + ModRR(ext, dst) + (Imm32(imm) + rest);
    Imm32Read(imm, ModRR(ext, dst), rest);
    assert tail == ModRR(ext, dst) + Imm32(imm) + rest;
    assert DecodeGroup1(x, 0x81, tail) == Some((i, 6));
    assert DecodeOp(x, [0x81] + tail) == DecodeGroup1(x, 0x81, tail);
  }

  lemma ImulImmBack(dst: Reg, imm: int, rest: seq<byte>)
    requires I32(imm)
    ensures var i := ImulImm(dst, imm); Decode(Encode(i) + rest) == Some((i, |Encode(i)|))
  {
    hide Imm32, ReadI32, ModRR, Rex, DecodeRR;
    var x, tail := RROpBack(true, 0x69, dst, dst, Imm32(imm) + rest);
    Imm32Read(imm, ModRR(dst, dst), rest);
    assert tail == ModRR(dst, dst) + Imm32(imm) + rest;
    assert Encode(ImulImm(dst, imm)) + rest
        == Rex(true, dst, 0, dst, false) + [0x69] + ModRR(dst, dst) + (Imm32(imm) + rest);
  }

  lemma ShlBack(dst: Reg, n: int, rest: seq<byte>)
    requires 0 <= n < 256
    ensures var i := ShlImm(dst, n); Decode(Encode(i) + rest) == Some((i, |Encode(i)|))
  {
    assert Rex(true, 4, 0, dst, false) == Rex(true, 0, 0, dst, false);
    hide Rex, DecodeRR;
    var x, tail := RROpBack(true, 0xC1, 4, dst, Imm8(n) + rest);
    assert Encode(ShlImm(dst, n)) + rest
        == Rex(true, 4, 0, dst, false) + [0xC1] + ModRR(4, dst) + (Imm8(n) + rest);
  }

  /** Two-byte opcodes 0F op with a register-register ModRM byte. */
  lemma TwoByteBack(w: bool, op: byte, reg: Reg, rm: Reg, force: bool, rest: seq<byte>)
    ensures var p := Rex(w, reg, 0, rm, force);
            |p| == 1 ==> 0x40 <= p[0] < 0x50
    ensures Decode(Rex(w, reg, 0, rm, force) + [0x0F, op] + ModRR(reg, rm) + rest)
         == match Decode0F(RexOf(Rex(w, reg, 0, rm, force)), [op] + ModRR(reg, rm) + rest)
            case Some((i, n)) => Some((i, n + |Rex(w, reg, 0, rm, force)|))
            case None => None
    ensures ([op] + ModRR(reg, rm) + rest)[1..] == ModRR(reg, rm) + rest
    ensures DecodeRR(RexOf(Rex(w, reg, 0, rm, force)), ModRR(reg, rm) + rest) == Some((reg, rm))
  {
    var p := Rex(w, reg, 0, rm, force);
    RexBack(w, reg, 0, rm, force);
    hide Rex, Decode0F;
    var tail := [op] + ModRR(reg, rm) + rest;
    assert p + [0x0F, op] + ModRR(reg, rm) + rest == p + [0x0F] + tail;
    DecodeRex(p, 0x0F, tail);
    assert ([0x0F] + tail)[1..] == tail;
    assert tail[1..] == ModRR(reg, rm) + rest;
    RRBack(RexOf(p), reg, rm, rest);
  }

  lemma ImulRRBack(dst: Reg, src: Reg, rest: seq<byte>)
    ensures var i := ImulRR(dst, src); Decode(Encode(i) + rest) == Some((i, |Encode(i)|))
  {
    hide Decode, DecodeRR, ModRR;
    RexBack(true, dst, 0, src, false);
    TwoByteBack(true, 0xAF, dst, src, false, rest);
  }

  lemma Movzx8Back(dst: Reg, src: Reg, rest: seq<byte>)
    ensures var i := Movzx8(dst, src); Decode(Encode(i) + rest) == Some((i, |Encode(i)|))
  {
    hide Decode, DecodeRR, ModRR;
    RexBack(true, dst, 0, src, false);
    TwoByteBack(true, 0xB6, dst, src, false, rest);
  }

  lemma SetCCBack(cc: int, dst: Reg, rest: seq<byte>)
    requires 0 <= cc < 16
    ensures var i := SetCC(cc, dst); Decode(Encode(i) + rest) == Some((i, |Encode(i)|))
  {
    hide Decode, DecodeRR, ModRR;
    RexBack(false, 0, 0, dst, dst >= 4);
    TwoByteBack(false, 0x90 + cc, 0, dst, dst >= 4, rest);
  }

  lemma LeaBack(dst: Reg, base: Reg, index: Reg, rest: seq<byte>)
    requires index != RSP
    ensures var i := LeaIdx8(dst, base, index); Decode(Encode(i) + rest) == Some((i, |Encode(i)|))
  {
    var p := Rex(true, dst, index, base, false);
    RexBack(true, dst, index, base, false);
    var mod := if base % 8 == 5 then 1 else 0;
    ModByteBack(mod, dst, 4);
    ModByteBack(3, index, base);
    var tail := [ModByte(mod, dst, 4), ModByte(3, index, base)] + (if mod == 1 then [0] else []) + rest;
    assert Encode(LeaIdx8(dst, base, index)) + rest == p + [0x8D] + tail;
    DecodeRex(p, 0x8D, tail);
    assert ([0x8D] + tail)[1..] == tail;
  }

  lemma MovImm64Back(dst: Reg, imm: int, rest: seq<byte>)
    requires 0 <= imm < TWO64
    ensures var i := MovImm64(dst, imm); Decode(Encode(i) + rest) == Some((i, |Encode(i)|))
  {
    var p, op: byte := Rex(true, 0, 0, dst, false), 0xB8 + dst % 8;
    RexBack(true, 0, 0, dst, false);
    hide Imm64, ReadU64, Rex, SplitRex;
    var tail := Imm64(imm) + rest;
    assert Encode(MovImm64(dst, imm)) + rest == p + [op] + tail;
    DecodeRex(p, op, tail);
    assert ([op] + tail)[1..] == tail;
    Imm64Read(imm, rest);
  }

  lemma MovImm32Back(dst: Reg, imm: int, rest: seq<byte>)
    requires 0 <= imm < TWO32
    ensures var i := MovImm32(dst, imm); Decode(Encode(i) + rest) == Some((i, |Encode(i)|))
  {
    var p, op: byte := Rex(false, 0, 0, dst, false), 0xB8 + dst % 8;
    RexBack(false, 0, 0, dst, false);
    hide Imm32, LE, UnLE, Rex, SplitRex, Pow256;
    Imm32Unsigned(imm, rest);
    var tail := Imm32(imm) + rest;
    assert Encode(MovImm32(dst, imm)) + rest == p + [op] + tail;
    DecodeRex(p, op, tail);
    assert ([op] + tail)[1..] == tail;
  }

  lemma Imm32Unsigned(imm: int, rest: seq<byte>)
    requires 0 <= imm < TWO32
    ensures |Imm32(imm)| == 4 && UnLE((Imm32(imm) + rest)[0..4]) == imm
  {
    hide LE, UnLE, Pow256;
    var tail := Imm32(imm) + rest;
    assert tail[0..4] == Imm32(imm);
    Pow256Values();
    UnLELE(4, imm);
  }

  lemma RaxAbsBack(i: Instr, rest: seq<byte>)
    requires Wf(i) && (i.LoadRaxAbs? || i.StoreRaxAbs?)
    ensures Decode(Encode(i) + rest) == Some((i, |Encode(i)|))
  {
    hide Imm64, ReadU64;
    var op: byte := if i.LoadRaxAbs? then 0xA1 else 0xA3;
    var tail := Imm64(i.addr) + rest;
    assert Encode(i) + rest == [0x48] + [op] + tail;
    DecodeRex([0x48], op, tail);
    assert ([op] + tail)[1..] == tail;
    Imm64Read(i.addr, rest);
  }

  lemma PushBack(src: Reg, rest: seq<byte>)
    ensures Decode(Encode(Push(src)) + rest) == Some((Push(src), |Encode(Push(src))|))
  {
    var p: seq<byte> := if src >= 8 then [0x41] else [];
    var op: byte := 0x50 + src % 8;
    assert Encode(Push(src)) == p + [op];
    hide Encode, Decode, Rex, ModRR, Imm32, Imm64, DecodeMem, DecodeRR;
    DecodeRex(p, op, rest);
  }

  lemma PopBack(dst: Reg, rest: seq<byte>)
    ensures Decode(Encode(Pop(dst)) + rest) == Some((Pop(dst), |Encode(Pop(dst))|))
  {
    var p: seq<byte> := if dst >= 8 then [0x41] else [];
    var op: byte := 0x58 + dst % 8;
    assert Encode(Pop(dst)) == p + [op];
    hide Encode, Decode, Rex, ModRR, Imm32, Imm64, DecodeMem, DecodeRR;
    DecodeRex(p, op, rest);
  }

  lemma FixedBack(i: Instr, rest: seq<byte>)
    requires i.Ret? || i.Leave?
    ensures Decode(Encode(i) + rest) == Some((i, |Encode(i)|))
  {
    DecodeRex([], if i.Ret? then 0xC3 else 0xC9, rest);
  }

  lemma Nop4Back(rest: seq<byte>)
    ensures Decode(Encode(Nop4) + rest) == Some((Nop4, |Encode(Nop4)|))
  {
    var tail: seq<byte> := [0x1F, 0x40, 0x00] + rest;
    assert Encode(Nop4) + rest == [] + [0x0F] + tail;
    hide Encode;
    DecodeRex([], 0x0F, tail);
    assert ([0x0F] + tail)[1..] == tail;
  }

  lemma JmpBack(rel: int, rest: seq<byte>)
    requires I32(rel)
    ensures Decode(Encode(Jmp(rel)) + rest) == Some((Jmp(rel), |Encode(Jmp(rel))|))
  {
    hide Imm32, ReadI32;
    var tail := Imm32(rel) + rest;
    assert Encode(Jmp(rel)) + rest == [] + [0xE9] + tail;
    DecodeRex([], 0xE9, tail);
    assert ([0xE9] + tail)[1..] == tail;
    Imm32Read(rel, [], rest);
    assert [] + Imm32(rel) + rest == tail;
  }

  lemma JccBack(cc: int, rel: int, rest: seq<byte>)
    requires 0 <= cc < 16 && I32(rel)
    ensures Decode(Encode(Jcc(cc, rel)) + rest) == Some((Jcc(cc, rel), |Encode(Jcc(cc, rel))|))
  {
    hide Imm32, ReadI32;
    var tail := [0x80 + cc] + Imm32(rel) + rest;
    assert Encode(Jcc(cc, rel)) + rest == [] + [0x0F] + tail;
    DecodeRex([], 0x0F, tail);
    assert ([0x0F] + tail)[1..] == tail;
    Imm32Read(rel, [0x80 + cc], rest);
  }

  /** Whatever bytes follow, the decoder recovers every well-formed emitted
      instruction and its exact length. */
  lemma DecodeEncode(i: Instr, rest: seq<byte>)
    requires Wf(i)
    ensures Decode(Encode(i) + rest) == Some((i, |Encode(i)|))
  {
    hide Encode, Decode;
    match i
    case Load(dst, base, disp) => MemOpBack(i, 0x8B, dst, base, disp, rest);
    case Store(base, disp, src) => MemOpBack(i, 0x89, src, base, disp, rest);
    case AddMem(base, disp, src) => MemOpBack(i, 0x01, src, base, disp, rest);
    case StoreImm(base, disp, imm) => StoreImmBack(base, disp, imm, rest);
    case LeaIdx8(dst, base, index) => LeaBack(dst, base, index, rest);
    case MovRR(_, _) => RMOpBack(i, rest);
    case AluRR(_, _, _) => RMOpBack(i, rest);
    case TestRR(_, _) => RMOpBack(i, rest);
    case Xor32(dst, src) => Xor32Back(dst, src, rest);
    case CallReg(src) => CallBack(src, rest);
    case MovSext32(dst, imm) => MovSextBack(dst, imm, rest);
    case AluImm(op, dst, imm) =>
      if Fits8(imm) { AluImm8Back(op, dst, imm, rest); } else { AluImm32Back(op, dst, imm, rest); }
    case ImulImm(dst, imm) => ImulImmBack(dst, imm, rest);
    case ShlImm(dst, n) => ShlBack(dst, n, rest);
    case ImulRR(dst, src) => ImulRRBack(dst, src, rest);
    case SetCC(cc, dst) => SetCCBack(cc, dst, rest);
    case Movzx8(dst, src) => Movzx8Back(dst, src, rest);
    case MovImm64(dst, imm) => MovImm64Back(dst, imm, rest);
    case MovImm32(dst, imm) => MovImm32Back(dst, imm, rest);
    case LoadRaxAbs(_) => RaxAbsBack(i, rest);
    case StoreRaxAbs(_) => RaxAbsBack(i, rest);
    case Push(src) => PushBack(src, rest);
    case Pop(dst) => PopBack(dst, rest);
    case Ret => FixedBack(i, rest);
    case Leave => FixedBack(i, rest);
    case Nop4 => Nop4Back(rest);
    case Jmp(rel) => JmpBack(rel, rest);
    case Jcc(cc, rel) => JccBack(cc, rel, rest);
  }

  // ------------------------------------------------------- instruction lists

  function EncodeAll(code: seq<Instr>): (bs: seq<byte>)
    ensures |bs| >= |code|
  {
    if code == [] then [] else Encode(code[0]) + EncodeAll(code[1..])
  }

  predicate AllWf(code: seq<Instr>) {
    forall n :: 0 <= n < |code| ==> Wf(code[n])
  }

  lemma {:induction false} EncodeAllConcat(a: seq<Instr>, b: seq<Instr>)
    ensures EncodeAll(a + b) == EncodeAll(a) + EncodeAll(b)
  {
    hide Encode;
    if a == [] {
      assert a + b == b;
    } else {
      EncodeAllConcat(a[1..], b);
      assert (a + b)[0] == a[0] && (a + b)[1..] == a[1..] + b;
      assert Encode(a[0]) + (EncodeAll(a[1..]) + EncodeAll(b)) == Encode(a[0]) + EncodeAll(a[1..]) + EncodeAll(b);
    }
  }

  lemma EncodeAllOne(i: Instr)
    ensures EncodeAll([i]) == Encode(i)
  {
    assert EncodeAll([i][1..]) == [];
  }

  /** Concatenated encodings decode uniquely: no two instruction lists of the
      same length share their bytes. */
  lemma {:induction false} EncodeAllInjective(a: seq<Instr>, b: seq<Instr>)
    requires AllWf(a) && AllWf(b)
    requires EncodeAll(a) == EncodeAll(b)
    ensures a == b
  {
    if a != [] && b != [] {
      DecodeEncode(a[0], EncodeAll(a[1..]));
      DecodeEncode(b[0], EncodeAll(b[1..]));
      var n := |Encode(a[0])|;
      assert EncodeAll(a)[n..] == EncodeAll(a[1..]);
      assert EncodeAll(b)[n..] == EncodeAll(b[1..]);
      EncodeAllInjective(a[1..], b[1..]);
      assert a == [a[0]] + a[1..] && b == [b[0]] + b[1..];
    }
  }
}
