/** codegen_func up to the return instruction: a whole function is appended and
    finished. GenModule has the rotation to the front of the buffer. */
module GenFunc {
  import opened Words
  import opened Isa
  import opened IsaRoundTrip
  import opened Machine
  import opened Source
  import opened Select
  import opened ExprBasics
  import opened Layout
  import opened NodeStream
  import opened Plain
  import opened Ranges
  import opened FuncProof
  import FuncTheorem
  import opened Patch
  import opened Returns
  import opened GenState
  import opened GenExpr
  import opened GenStmt

  // ----------------------------------------------------------------- prologue

  /** The first k save slots. */
  function SlotsTo(n: nat, k: nat): seq<Instr> {
    if k == 0 then [] else SlotsTo(n, k - 1) + [SaveSlot(n, k - 1)]
  }

  /** What is in front of the save slots; four-byte instructions from here on. */
  function FrameHead(n: nat): seq<Instr> { [Push(RBP), MovRR(RBP, RSP), FrameSub(n)] }

  lemma FourBytes(n: nat, k: nat)
    requires k < 5
    ensures |Encode(SaveSlot(n, k))| == 4 && |Encode(FrameSub(n))| == 4 && |Encode(Nop4)| == 4
  {}

  lemma {:induction false} SlotsSize(n: nat, k: nat)
    requires k <= 5
    ensures Size(SlotsTo(n, k)) == 4 * k
  {
    hide Encode;
    if k == 0 {
      EmptySize();
    } else {
      SlotsSize(n, k - 1);
      SizeConcat(SlotsTo(n, k - 1), [SaveSlot(n, k - 1)]);
      SizeOne(SaveSlot(n, k - 1));
      FourBytes(n, k - 1);
    }
  }

  lemma HeadSize(n: nat)
    ensures Size([Push(RBP), MovRR(RBP, RSP)]) == 4 && Size(FrameHead(n)) == 8
  {
    hide Size;
    var a, b := [Push(RBP)], [MovRR(RBP, RSP)];
    SizeConcat(a, b);
    SizeOne(Push(RBP));
    SizeOne(MovRR(RBP, RSP));
    SizeConcat(a + b, [FrameSub(n)]);
    SizeOne(FrameSub(n));
    FourBytes(n, 0);
    assert a + b + [FrameSub(n)] == FrameHead(n);
    assert a + b == [Push(RBP), MovRR(RBP, RSP)];
    FirstBytes();
  }

  lemma FirstBytes()
    ensures |Encode(Push(RBP))| == 1 && |Encode(MovRR(RBP, RSP))| == 3
  {}

  lemma {:induction false} SlotsAll(n: nat, k: nat)
    requires k <= 5
    ensures SlotsTo(n, k) + SaveSlots(n, k) == SaveSlots(n, 0)
  {
    hide SaveSlot;
    if k > 0 {
      SlotsAll(n, k - 1);
      assert SlotsTo(n, k - 1) + ([SaveSlot(n, k - 1)] + SaveSlots(n, k)) == SlotsTo(n, k) + SaveSlots(n, k);
    }
  }

  /** push rbp; mov rbp, rsp; the frame; every save; xor eax, eax. */
  method EmitPrologue(b: Buffer) returns (subAt: nat, slotsAt: nat)
    requires b.Valid() && b.code == [] && b.fn.depth == 0
    modifies b`data, b`code, b`fn
    ensures b.Valid() && b.code == Prologue(5) && b.fn == old(b.fn)
    ensures subAt == |b.before| + 4 && slotsAt == |b.before| + 8
  {
    hide Encode, EncodeAll, Size;
    b.EmitPush(RBP);
    b.fn := b.fn.(depth := 0);
    b.EmitMov(RBP, RSP);
    HeadSize(5);
    DataSize(b);
    assert b.code == [Push(RBP), MovRR(RBP, RSP)];
    subAt := |b.data|;
    b.Emit(AluImm(SubOp, RSP, FRAME_SIZE));
    DataSize(b);
    assert b.code == FrameHead(5);
    slotsAt := |b.data|;
    for k := 0 to 5
      invariant b.Valid() && b.fn == old(b.fn)
      invariant b.code == FrameHead(5) + SlotsTo(5, k)
    {
      assert SaveSlot(5, k) == Store(RBP, -8 * (k + 1), SaveReg(k));
      b.Emit(Store(RBP, -8 * (k + 1), SAVE_ORDER[k]));
    }
    SlotsAll(5, 5);
    b.Emit(Xor32(RAX, RAX));
  }

  /** A four-byte instruction is overwritten. */
  method EmitNop4(b: Buffer, at: nat, ghost a: seq<Instr>, ghost i: Instr, ghost tail: seq<Instr>)
    requires b.Valid() && b.code == a + [i] + tail && at == |b.before| + Size(a) && |Encode(i)| == 4
    modifies b`data, b`code
    ensures b.Valid() && b.code == a + [Nop4] + tail
  {
    hide Encode, EncodeAll;
    CodeBytes(b.before, a, i, tail);
    CodeBytes(b.before, a, Nop4, tail);
    FourBytes(0, 0);
    NopBytes();
    SizeIs(a);
    assert at + 4 <= |b.data|;
    ghost var pre := b.before + EncodeAll(a);
    assert b.data[..at] == pre;
    assert b.data[at + 4..] == EncodeAll(tail);
    b.data := b.data[..at] + [0x0F, 0x1F, 0x40, 0x00] + b.data[at + 4..];
    b.code := a + [Nop4] + tail;
  }

  lemma NopBytes()
    ensures Encode(Nop4) == [0x0F, 0x1F, 0x40, 0x00]
  {}

  lemma UsedSlots(n: nat, k: nat)
    requires n <= 5 && k < 5
    ensures SaveReg(k) in Picked(0, n) <==> SlotUsed(n, k)
  {
    if SlotUsed(n, k) {
      var i := if k == 0 then 4 else k - 1;
      assert SaveReg(k) == Saved(i);
    }
  }

  /** The code while the first k saves have been looked at. */
  ghost predicate HalfDropped(b: Buffer, n: nat, k: nat, tail: seq<Instr>)
    requires k <= 5
    reads b
  {
    b.Valid() && b.code == FrameHead(5) + SlotsTo(n, k) + SaveSlots(5, k) + tail
  }

  /** The k-th save becomes a no-op when the body never picked its register. */
  method DropSave(b: Buffer, slotsAt: nat, k: nat, ghost n: nat, ghost tail: seq<Instr>) returns (used: bool)
    requires k < 5 && n <= 5 && HalfDropped(b, n, k, tail) && b.fn.csUsed == Picked(0, n)
    requires slotsAt == |b.before| + 8
    modifies b`data, b`code
    ensures HalfDropped(b, n, k + 1, tail) && used == SlotUsed(n, k)
  {
    hide Encode, EncodeAll, Size, Picked, FrameHead;
    UsedSlots(n, k);
    used := SAVE_ORDER[k] in b.fn.csUsed;
    ghost var a, more := FrameHead(5) + SlotsTo(n, k), SaveSlots(5, k + 1) + tail;
    assert b.code == a + [SaveSlot(5, k)] + more;
    assert SaveSlot(n, k) == if used then SaveSlot(5, k) else Nop4;
    if !used {
      HeadSize(5);
      SlotsSize(n, k);
      SizeConcat(FrameHead(5), SlotsTo(n, k));
      FourBytes(5, k);
      EmitNop4(b, slotsAt + k * 4, a, SaveSlot(5, k), more);
    }
    SlotMoved(n, k, tail);
  }

  lemma SlotMoved(n: nat, k: nat, tail: seq<Instr>)
    requires k < 5
    ensures FrameHead(5) + SlotsTo(n, k) + [SaveSlot(n, k)] + (SaveSlots(5, k + 1) + tail)
         == FrameHead(5) + SlotsTo(n, k + 1) + SaveSlots(5, k + 1) + tail
  {
    hide SaveSlot, FrameHead, SaveSlots;
  }

  lemma PrologueShape(n: nat, rest: seq<Instr>)
    ensures Prologue(n) + rest
         == [Push(RBP), MovRR(RBP, RSP)] + [FrameSub(n)] + (SaveSlots(n, 0) + ([Xor32(RAX, RAX)] + rest))
  {
    hide SaveSlots, FrameSub;
  }

  /** Saves of registers the body never picked become no-ops, and so does the
      frame when none is left. */
  method DropSaves(b: Buffer, subAt: nat, slotsAt: nat, ghost n: nat, ghost rest: seq<Instr>)
    requires b.Valid() && n <= 5 && b.code == Prologue(5) + rest && b.fn.csUsed == Picked(0, n)
    requires subAt == |b.before| + 4 && slotsAt == |b.before| + 8
    modifies b`data, b`code
    ensures b.Valid() && b.code == Prologue(n) + rest
  {
    hide Encode, EncodeAll, Size, Picked, SaveSlots, Prologue, FrameSub;
    var used := 0;
    ghost var tail := [Xor32(RAX, RAX)] + rest;
    PrologueShape(5, rest);
    PrologueShape(n, rest);
    assert HalfDropped(b, n, 0, tail);
    for k := 0 to 5
      invariant 0 <= used <= k && HalfDropped(b, n, k, tail)
      invariant used == 0 <==> forall i: nat :: i < k ==> !SlotUsed(n, i)
    {
      var keep := DropSave(b, slotsAt, k, n, tail);
      if keep { used := used + 1; }
    }
    DroppedShape(n, tail);
    assert used == 0 <==> n == 0 by {
      if n > 0 { assert SlotUsed(n, 1); }
    }
    ghost var head := [Push(RBP), MovRR(RBP, RSP)];
    assert FrameSub(n) == if used == 0 then Nop4 else FrameSub(5) by { FrameFacts(n); }
    if used == 0 {
      HeadSize(5);
      FourBytes(5, 0);
      EmitNop4(b, subAt, head, FrameSub(5), SaveSlots(n, 0) + tail);
    }
  }

  lemma DroppedShape(n: nat, tail: seq<Instr>)
    ensures FrameHead(5) + SlotsTo(n, 5) + SaveSlots(5, 5) + tail
         == [Push(RBP), MovRR(RBP, RSP)] + [FrameSub(5)] + (SaveSlots(n, 0) + tail)
  {
    SlotsAll(n, 5);
    NoSlots();
    hide SaveSlots, SlotsTo, FrameSub;
  }

  lemma NoSlots()
    ensures forall n :: SaveSlots(n, 5) == []
  {}

  lemma FrameFacts(n: nat)
    ensures FrameSub(n) == if n == 0 then Nop4 else FrameSub(5)
  {}

  // --------------------------------------------------------------- parameters

  /** n cells, one for each argument. */
  function ParseParams(E: Env, ns: seq<Node>, i: nat, sc: nat, n: nat): (r: Option<(seq<u64>, nat)>)
    requires i <= |ns|
    ensures r.Some? ==> i <= r.value.1 <= |ns| && |r.value.0| == n
    decreases n
  {
    if n == 0 then Some(([], i))
    else if !CellAt(ns, i) then None
    else
      match LeafAt(E, ns, i, sc)
      case Some(e) =>
        (match ParseParams(E, ns, i + LeafSize(ns, i), sc, n - 1)
         case Some((ps, i')) => Some(([CellAddr(e)] + ps, i'))
         case None => None)
      case None => None
  }

  function CellAddr(e: Expr): u64 { if e.Cell? then e.addr else 0 }

  /** A function definition: with arguments, a node that counts them and their
      cells; then the body. */
  function ParseFunc(E: Env, ns: seq<Node>, i: nat, sc: nat, argCount: nat): (r: Option<(Func, nat, nat)>)
    requires i <= |ns|
    ensures r.Some? ==> i < r.value.1
  {
    if argCount == 0 then ParseBody(E, ns, [], i, sc)
    else if TokenAt(ns, i) in {NBlock, TComma} && Payload(ns, i + 1) == Some(argCount) then
      var sc1 := if TokenAt(ns, i) == NBlock then sc + 1 else sc;
      match ParseParams(E, ns, i + 2, sc1, argCount)
      case Some((ps, i1)) => ParseBody(E, ns, ps, i1, sc1)
      case None => None
    else None
  }

  function ParseBody(E: Env, ns: seq<Node>, ps: seq<u64>, i: nat, sc: nat): (r: Option<(Func, nat, nat)>)
    ensures r.Some? ==> i < r.value.1
  {
    match ParseStmts(E, ns, i, sc, 1)
    case Some(Parsed(st, i1, sc1)) => Some((Func(ps, st), i1, sc1))
    case None => None
  }

  lemma CellLeaf(E: Env, ns: seq<Node>, i: nat, sc: nat)
    requires CellAt(ns, i) && LeafAt(E, ns, i, sc).Some?
    ensures var e := LeafAt(E, ns, i, sc).value;
            e.Cell? && LeafCode(e, RAX, true) == [MovImm64(RAX, e.addr)]
  {}

  lemma ParamShape(a: u64, ps: seq<u64>, i: nat)
    ensures ParamCode([a] + ps, i) == [MovImm64(RAX, a), Store(RAX, 0, ArgReg(i))] + ParamCode(ps, i + 1)
    ensures ParamCode([], i) == []
  {
    assert ([a] + ps)[1..] == ps;
  }

  /** One argument, stored to its cell. */
  method GenParam(b: Buffer, j: nat) returns (ok: bool)
    requires AtRest(b)
    modifies b`data, b`code, b`it
    ensures AtRest(b)
    ensures ok <==> CellAt(b.nodes, old(b.it)) && LeafAt(b.env, b.nodes, old(b.it), b.scope).Some?
    ensures ok ==> var a := CellAddr(LeafAt(b.env, b.nodes, old(b.it), b.scope).value);
                   b.code == old(b.code) + [MovImm64(RAX, a), Store(RAX, 0, ArgReg(j))]
                   && b.it == old(b.it) + LeafSize(b.nodes, old(b.it))
  {
    hide EncodeAll, Encode, LeafAt, LeafSize, LeafCode, Reserved;
    if !CellAt(b.nodes, b.it) { return false; }
    ok := b.GenLeaf(RAX, true, b.it);
    if !ok { return; }
    CellLeaf(b.env, b.nodes, b.it, b.scope);
    LeafInside(b.nodes, b.it);
    b.it := b.it + LeafSize(b.nodes, b.it);
    b.Emit(Store(RAX, 0, ArgReg(j)));
  }

  lemma ParamsStep(E: Env, ns: seq<Node>, i: nat, sc: nat, n: nat, j: nat)
    requires i <= |ns| && n > 0
    ensures var e := LeafAt(E, ns, i, sc);
            var all := ParseParams(E, ns, i, sc, n);
            if CellAt(ns, i) && e.Some? then
              var rest := ParseParams(E, ns, i + LeafSize(ns, i), sc, n - 1);
              && (all.Some? <==> rest.Some?)
              && (all.Some? ==>
                && all.value.1 == rest.value.1
                && ParamCode(all.value.0, j)
                   == [MovImm64(RAX, CellAddr(e.value)), Store(RAX, 0, ArgReg(j))] + ParamCode(rest.value.0, j + 1))
            else all.None?
  {
    hide LeafAt, LeafSize, ParamCode;
    var e := LeafAt(E, ns, i, sc);
    if CellAt(ns, i) && e.Some? {
      var rest := ParseParams(E, ns, i + LeafSize(ns, i), sc, n - 1);
      if rest.Some? { ParamShape(CellAddr(e.value), rest.value.0, j); }
    }
  }

  lemma ParamsEnd(E: Env, ns: seq<Node>, i: nat, sc: nat, n: nat)
    requires i <= |ns|
    ensures ParseParams(E, ns, i, sc, 0) == Some(([], i)) && ParamCode([], n) == []
  {}

  /** The arguments are stored to their cells. */
  method GenParams(b: Buffer, n: nat) returns (ok: bool)
    requires AtRest(b) && n <= 6
    modifies b`data, b`code, b`it
    ensures AtRest(b)
    ensures var p := ParseParams(b.env, b.nodes, old(b.it), b.scope, n);
            && (ok <==> p.Some?)
            && (ok ==> b.code == old(b.code) + ParamCode(p.value.0, 0) && b.it == p.value.1)
  {
    hide EncodeAll, Encode, ParamCode, ParseParams, LeafAt, LeafSize, Reserved, CellAt;
    ghost var all := ParseParams(b.env, b.nodes, b.it, b.scope, n);
    for j := 0 to n
      invariant AtRest(b)
      invariant var rest := ParseParams(b.env, b.nodes, b.it, b.scope, n - j);
                && (all.Some? <==> rest.Some?)
                && (all.Some? ==> rest.value.1 == all.value.1
                                  && b.code + ParamCode(rest.value.0, j) == old(b.code) + ParamCode(all.value.0, 0))
    {
      ParamsStep(b.env, b.nodes, b.it, b.scope, n - j, j);
      ok := GenParam(b, j);
      if !ok { return; }
    }
    ok := true;
    ParamsEnd(b.env, b.nodes, b.it, b.scope, n);
  }

  // ------------------------------------------------------------------ returns

  /** The remembered branches, from the last to the first. */
  method PatchReturns(b: Buffer) returns (ok: bool)
    requires forall n :: 0 <= n < |b.rets| ==> b.rets[n] + 4 <= |b.data|
    modifies b`data
    ensures |b.data| == |old(b.data)|
    ensures ok <==> Reach(b.rets, |b.data|)
    ensures ok ==> PatchesTo(old(b.data), b.rets, |b.data|, b.data)
  {
    hide Patched;
    var i: nat := |b.rets|;
    ghost var d0 := b.data;
    assert b.rets[..i] == b.rets;
    while i > 0
      invariant i <= |b.rets| && |b.data| == |d0|
      invariant forall n :: i <= n < |b.rets| ==> I32(|d0| - (b.rets[n] + 4))
      invariant PatchAll(b.data, b.rets[..i], |d0|) == PatchAll(d0, b.rets, |d0|)
    {
      i := i - 1;
      assert b.rets[..i + 1][..i] == b.rets[..i];
      ok := PatchRel(b, b.rets[i], |b.data|);
      if !ok { return; }
    }
    ok := true;
  }

  /** A `return` to the epilogue right behind it is cut off; the others get
      their distance. */
  method FinishReturns(b: Buffer, ghost head: seq<Instr>, ghost st: Stmt) returns (ok: bool)
    requires b.Valid() && b.code == head + StmtCode(st, None) && AllWf(StmtCode(st, None))
    requires b.rets == RetOffs(st, |b.before| + Size(head))
    modifies b`data, b`code, b`rets
    ensures ok <==> AllWf(BodyCode(st))
    ensures ok ==> b.Valid() && b.code == head + BodyCode(st)
  {
    hide Encode, EncodeAll, StmtCode, BodyCode, StmtSize, RetOffs, TailReturn, PatchesTo, AllWf, Reach, PatchAll;
    ghost var pre := b.before + EncodeAll(head);
    SizeIs(head);
    ghost var full, offs, base := b.data, b.rets, |pre|;
    HeadAndBody(b.before, head, st);
    BodyFits(st, base);
    LastIsTail(st, base);
    RetsSpaced(st, base);
    EncodedSize(st, None);
    if TailReturn(st) { PatchCut(pre, st, full, offs); }
    var n := |b.rets|;
    if n > 0 && b.rets[n - 1] + 4 == |b.data| && |b.data| >= 5 && b.data[b.rets[n - 1] - 1] == 0xE9 {
      b.data := b.data[..|b.data| - 5];
      b.rets := b.rets[..n - 1];
    } else {
      PatchPlain(pre, st);
    }
    ghost var cut := b.data;
    ok := PatchReturns(b);
    if !ok { return; }
    b.code := head + BodyCode(st);
    PatchedOnce(cut, b.rets, |b.data|, b.data, pre + EncodeAll(BodyCode(st)));
    EncodeAllConcat(head, BodyCode(st));
    assert pre + EncodeAll(BodyCode(st)) == b.before + (EncodeAll(head) + EncodeAll(BodyCode(st)));
  }

  lemma HeadAndBody(before: seq<byte>, head: seq<Instr>, st: Stmt)
    ensures before + EncodeAll(head + StmtCode(st, None)) == before + EncodeAll(head) + EncodeAll(StmtCode(st, None))
  {
    hide EncodeAll, StmtCode;
    EncodeAllConcat(head, StmtCode(st, None));
    assert before + (EncodeAll(head) + EncodeAll(StmtCode(st, None))) == before + EncodeAll(head) + EncodeAll(StmtCode(st, None));
  }

  lemma PatchedOnce(bytes: seq<byte>, offs: seq<nat>, target: int, a: seq<byte>, b: seq<byte>)
    requires PatchesTo(bytes, offs, target, a) && PatchesTo(bytes, offs, target, b)
    ensures a == b
  {}

  lemma PatchPlain(pre: seq<byte>, st: Stmt)
    requires !TailReturn(st)
    ensures PatchesTo(pre + EncodeAll(StmtCode(st, None)), RetOffs(st, |pre|), |pre| + StmtSize(st),
                      pre + EncodeAll(BodyCode(st)))
  {
    hide EncodeAll, StmtCode, PatchesTo, RetOffs, StmtSize, TailReturn;
    PatchStmt(pre, st, [], 0);
    assert pre + EncodeAll(StmtCode(st, None)) + [] == pre + EncodeAll(StmtCode(st, None));
    assert pre + EncodeAll(StmtCode(st, Some(0))) + [] == pre + EncodeAll(StmtCode(st, Some(0)));
  }

  // ----------------------------------------------------------------- epilogue

  function RestoresTo(n: nat, k: nat): seq<Instr> {
    if k == 0 then [] else RestoresTo(n, k - 1) + Restore(n, k - 1)
  }

  lemma {:induction false} RestoresAll(n: nat, k: nat)
    requires k <= 5
    ensures RestoresTo(n, k) + Restores(n, k) == Restores(n, 0)
  {
    hide Restore;
    if k > 0 {
      RestoresAll(n, k - 1);
      assert RestoresTo(n, k - 1) + (Restore(n, k - 1) + Restores(n, k)) == RestoresTo(n, k) + Restores(n, k);
    }
  }

  method EmitEpilogue(b: Buffer, ghost n: nat)
    requires b.Valid() && n <= 5 && b.fn.csUsed == Picked(0, n)
    modifies b`data, b`code
    ensures b.Valid() && b.code == old(b.code) + Epilogue(n)
  {
    hide Encode, EncodeAll, Picked;
    for k := 0 to 5
      invariant b.Valid() && b.code == old(b.code) + RestoresTo(n, k)
    {
      UsedSlots(n, k);
      if SAVE_ORDER[k] in b.fn.csUsed {
        b.Emit(Load(SAVE_ORDER[k], RBP, -8 * (k + 1)));
      }
      assert old(b.code) + RestoresTo(n, k) + Restore(n, k) == old(b.code) + RestoresTo(n, k + 1);
    }
    RestoresAll(n, 5);
    assert Restores(n, 5) == [];
    b.Emit(Leave);
    b.Emit(Ret);
  }

  // ----------------------------------------------------------- whole functions

  /** The node in front of the parameters, and the parameters. */
  method GenHeader(b: Buffer, argCount: nat) returns (ok: bool)
    requires AtRest(b) && 0 < argCount <= 6
    modifies b`data, b`code, b`it, b`scope, b`fn, b`rets
    ensures var i, sc := old(b.it), old(b.scope);
            var sc1 := if TokenAt(b.nodes, i) == NBlock then sc + 1 else sc;
            var counted := TokenAt(b.nodes, i) in {NBlock, TComma} && Payload(b.nodes, i + 1) == Some(argCount);
            && (ok <==> counted && ParseParams(b.env, b.nodes, i + 2, sc1, argCount).Some?)
            && (ok ==>
                var p := ParseParams(b.env, b.nodes, i + 2, sc1, argCount).value;
                && AtRest(b) && b.code == old(b.code) + ParamCode(p.0, 0) && b.it == p.1 && b.scope == sc1
                && b.fn == old(b.fn) && b.rets == old(b.rets))
  {
    hide EncodeAll, Encode, ParamCode, ParseParams, ParseStmt, Feasible, Stated;
    var more;
    ok, more := CodegenNode(b);
    if !ok || more != argCount { return false; }
    ok := GenParams(b, argCount);
  }

  lemma FuncFits(f: Func)
    ensures AllWf(BodyCode(f.body)) ==> AllWf(StmtCode(f.body, None))
    ensures AllWf(FuncCode(f)) <==> AllWf(BodyCode(f.body))
  {
    hide AllWf, StmtCode, Reach, BodyCode;
    if AllWf(BodyCode(f.body)) {
      FuncTheorem.BodyWf(f.body);
      ExitsFit(f.body, if TailReturn(f.body) then -JMP_SIZE else 0, 0);
    }
    FuncWf(f);
  }

  lemma Assoc4(a: seq<Instr>, b: seq<Instr>, c: seq<Instr>)
    ensures a + b + c == a + (b + c)
  {}

  /** Everything from the prologue to the return instruction. */
  method EmitFunc(b: Buffer, argCount: nat) returns (ok: bool)
    requires b.Valid() && b.code == [] && b.rets == [] && b.fn == FnState({}, {}, 0)
    requires b.it <= |b.nodes| && argCount <= 6
    modifies b`data, b`code, b`it, b`scope, b`fn, b`rets
    ensures var p := ParseFunc(b.env, b.nodes, old(b.it), old(b.scope), argCount);
            && (ok <==> p.Some? && NeedS(p.value.0.body) <= 5 && AllWf(FuncCode(p.value.0)))
            && (ok ==> b.Valid() && b.code == FuncCode(p.value.0) && b.it == p.value.1 <= |b.nodes| && b.scope == p.value.2)
  {
    hide EncodeAll, Encode, Prologue, ParamCode, ParseParams, ParseStmts, StmtCode, BodyCode, Epilogue, RetOffs, NeedS, AllWf,
         Picked, Size, StmtSize;
    ghost var p := ParseFunc(b.env, b.nodes, b.it, b.scope, argCount);
    if p.Some? { FuncFits(p.value.0); }
    var subAt, slotsAt := EmitPrologue(b);
    ghost var ps := [];
    ParamShape(0, [], 0);
    if argCount > 0 {
      ok := GenHeader(b, argCount);
      if !ok { return; }
      ps := ParseParams(b.env, b.nodes, old(b.it) + 2, b.scope, argCount).value.0;
    }
    ghost var params := ParamCode(ps, 0);
    assert b.code == Prologue(5) + params;
    DataSize(b);
    ok := GenWork(b);
    if !ok { return; }
    ghost var st := p.value.0.body;
    ghost var n := NeedS(st);
    assert b.fn.csUsed == Picked(0, n) by { PickedFacts(0, 0, 0); }
    Assoc4(Prologue(5), params, StmtCode(st, None));
    DropSaves(b, subAt, slotsAt, n, params + StmtCode(st, None));
    Assoc4(Prologue(n), params, StmtCode(st, None));
    PrologueSizes(n);
    SizeConcat(Prologue(n), params);
    SizeConcat(Prologue(5), params);
    ok := FinishReturns(b, Prologue(n) + params, st);
    if !ok { return; }
    EmitEpilogue(b, n);
  }

  lemma PrologueSizes(n: nat)
    ensures Size(Prologue(n)) == Size(Prologue(5))
  {
    hide Size, SaveSlots, FrameSub;
    PrologueSize(n);
    PrologueSize(5);
  }

  lemma PrologueSize(n: nat)
    ensures Size(Prologue(n)) == 28 + Size([Xor32(RAX, RAX)])
  {
    hide Size, FrameSub, SaveSlots;
    HeadSize(n);
    SlotsSize(n, 5);
    SlotsAll(n, 5);
    NoSlots();
    assert SlotsTo(n, 5) + [] == SlotsTo(n, 5);
    SizeConcat(FrameHead(n), SaveSlots(n, 0));
    SizeConcat(FrameHead(n) + SaveSlots(n, 0), [Xor32(RAX, RAX)]);
    assert Prologue(n) == FrameHead(n) + SaveSlots(n, 0) + [Xor32(RAX, RAX)];
  }
}
