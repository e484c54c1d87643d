/** Statements over the node stream: branches with back-patched distances, and
    work-count loops that take the members of blocks as they come. */
module GenStmt {
  import opened Words
  import opened Isa
  import opened IsaRoundTrip
  import opened Machine
  import opened Source
  import opened Select
  import opened ExprBasics
  import opened Layout
  import opened NodeStream
  import opened Plain
  import opened Ranges
  import opened Patch
  import opened GenState
  import opened GenExpr

  /** Nothing is reserved or pushed between statements. */
  ghost predicate AtRest(b: Buffer)
    reads b
  {
    b.Valid() && b.fn.busy == {} && b.fn.depth == 0 && b.it <= |b.nodes|
  }

  lemma NoneReserved()
    ensures Reserved(0, 0) == {}
  {}

  /** patch_rel: fails when the distance does not fit 32 bits. */
  method PatchRel(b: Buffer, patch: nat, target: nat) returns (ok: bool)
    requires patch + 4 <= |b.data|
    modifies b`data
    ensures ok <==> I32(target - (patch + 4))
    ensures b.data == if ok then Patched(old(b.data), patch, target) else old(b.data)
  {
    var delta: int := target - (patch + 4);
    if delta < -TWO31 || delta > INT32_MAX { return false; }
    b.data := b.data[..patch] + Imm32(delta) + b.data[patch + 4..];
    ok := true;
  }

  /** The state after a statement: its code appended, its `return` branches
      remembered, the cursor and the scope counter behind it. */
  ghost predicate Stated(b: Buffer, c0: seq<Instr>, f0: FnState, rets0: seq<nat>, base: nat, p: Parsed)
    reads b
  {
    && b.code == c0 + StmtCode(p.st, None) && |b.data| == base + StmtSize(p.st)
    && b.rets == rets0 + RetOffs(p.st, base)
    && b.it == p.it && b.it <= |b.nodes| && b.scope == p.sc
    && b.fn == f0.(csUsed := f0.csUsed + Picked(0, NeedS(p.st)))
  }

  /** What the generator can do with a parsed statement. */
  ghost predicate Feasible(st: Stmt) { NeedS(st) <= 5 && AllWf(StmtCode(st, None)) }

  // -------------------------------------------------------------- conditions

  lemma PlainCompare(E: Env, ns: seq<Node>, i: nat, sc: nat)
    requires i < |ns|
    ensures var t := TokenAt(ns, i);
            var p := ParseExpr(E, ns, i, sc);
            BinOpOf(t).Some? && IsCompare(BinOpOf(t).value) ==>
              p == match ParsePair(E, ns, i + 1, sc)
                   case Some((x, y, i')) => Some((Bin(BinOpOf(t).value, x, y), i'))
                   case None => None
    ensures var t := TokenAt(ns, i);
            var p := ParseExpr(E, ns, i, sc);
            !(BinOpOf(t).Some? && IsCompare(BinOpOf(t).value)) && p.Some? ==>
              !(p.value.0.Bin? && IsCompare(p.value.0.op))
  {
    hide ParsePair, ParseList, ParseArgs;
    ParseCases(E, ns, i, sc);
  }

  lemma CondShape(c: Expr)
    ensures CondCode(c) == if c.Bin? && IsCompare(c.op) then BinCode(c, RAX, 0, 0, 0)
                           else Code(c, RAX, false, 0, 0, 0) + [TestRR(RAX, RAX)]
    ensures SkipCC(c) == if c.Bin? && IsCompare(c.op) then Negate(CompareCC(c.op)) else CC_E
  {}

  /** gen_jump_if_false: the condition and a branch that holds no distance yet. */
  method GenJumpIfFalse(b: Buffer) returns (ok: bool, patch: nat)
    requires AtRest(b)
    modifies b`data, b`code, b`fn, b`it
    ensures b.Valid()
    ensures var p := ParseExpr(b.env, b.nodes, old(b.it), b.scope);
            && (ok <==> p.Some? && Need(p.value.0) <= 5)
            && (ok ==> b.Produced(old(b.code), old(b.fn), CondCode(p.value.0) + [Jcc(SkipCC(p.value.0), 0)],
                                  p.value.1, 0, Need(p.value.0))
                       && patch + 4 == |b.data|)
  {
    hide Code, BinCode, CondCode, SkipCC, EncodeAll, Encode, ParseExpr, ParsePair, Need, Picked, Reserved;
    NoneReserved();
    patch := 0;
    ghost var p := ParseExpr(b.env, b.nodes, b.it, b.scope);
    if b.it >= |b.nodes| {
      ParseCases(b.env, b.nodes, b.it, b.scope);
      return false, 0;
    }
    PlainCompare(b.env, b.nodes, b.it, b.scope);
    if p.Some? { CondShape(p.value.0); }
    assert TargetOk(RAX, 0) by { RaxOk(0); }
    var op := BinOpOf(TokenAt(b.nodes, b.it));
    if op.Some? && IsCompare(op.value) {
      b.it := b.it + 1;
      ok := GenBinary(b, op.value, RAX, false, true, 0, 0);
      if !ok { return; }
      b.Emit(Jcc(Negate(CompareCC(op.value)), 0));
    } else {
      ok := CodegenExpr(b, RAX, false, 0, 0);
      if !ok { return; }
      b.Emit(TestRR(RAX, RAX));
      b.Emit(Jcc(CC_E, 0));
    }
    JccBytes(SkipCC(p.value.0));
    patch := |b.data| - 4;
  }

  lemma JccBytes(cc: int)
    ensures |Encode(Jcc(cc, 0))| == 6 && |Encode(Jmp(0))| == 5
  {}

  // -------------------------------------------------------------- statements

  lemma DataSize(b: Buffer)
    requires b.Valid()
    ensures |b.data| == |b.before| + Size(b.code)
  {
    hide EncodeAll;
  }

  lemma IfFacts(c: Expr, body: Stmt, base: nat)
    ensures var st := If(c, body);
            && StmtCode(st, None) == CondCode(c) + [Jcc(SkipCC(c), StmtSize(body))] + StmtCode(body, None)
            && StmtSize(st) == Size(CondCode(c)) + JCC_SIZE + StmtSize(body)
            && RetOffs(st, base) == RetOffs(body, base + Size(CondCode(c)) + JCC_SIZE)
            && NeedS(st) == MaxInt(Need(c), NeedS(body))
            && (Feasible(st) <==> Need(c) <= 5 && Feasible(body) && I32(StmtSize(body)))
  {
    hide Size, Code, CondCode, AllWf, SkipCC, Need;
    SkipCCOk(c);
    CondPlain(c);
    PlainWf(CondCode(c));
    var j := Jcc(SkipCC(c), StmtSize(body));
    AllWfSplit(CondCode(c), [j]);
    AllWfSplit(CondCode(c) + [j], StmtCode(body, None));
    OneWf(j);
  }

  lemma OneWf(i: Instr)
    ensures AllWf([i]) <==> Wf(i)
  {
    assert [i][0] == i;
  }

  lemma WhileFacts(c: Expr, body: Stmt, base: nat)
    ensures var st := While(c, body);
            && StmtCode(st, None) == CondCode(c) + [Jcc(SkipCC(c), StmtSize(body) + JMP_SIZE)] + StmtCode(body, None)
                                     + [Jmp(Back(StmtSize(st)))]
            && StmtSize(st) == Size(CondCode(c)) + JCC_SIZE + StmtSize(body) + JMP_SIZE
            && RetOffs(st, base) == RetOffs(body, base + Size(CondCode(c)) + JCC_SIZE)
            && NeedS(st) == MaxInt(Need(c), NeedS(body))
  {
    hide Size, Code, CondCode, SkipCC, Need;
  }

  lemma WhileFeasible(c: Expr, body: Stmt)
    ensures var st := While(c, body);
            Feasible(st) <==> Need(c) <= 5 && Feasible(body) && I32(StmtSize(body) + JMP_SIZE) && I32(Back(StmtSize(st)))
  {
    hide Size, Code, CondCode, AllWf, SkipCC, Need;
    WhileFacts(c, body, 0);
    SkipCCOk(c);
    CondPlain(c);
    PlainWf(CondCode(c));
    var st := While(c, body);
    var j, back := Jcc(SkipCC(c), StmtSize(body) + JMP_SIZE), Jmp(Back(StmtSize(st)));
    hide StmtCode, StmtSize, NeedS;
    AllWfSplit(CondCode(c), [j]);
    AllWfSplit(CondCode(c) + [j], StmtCode(body, None));
    AllWfSplit(CondCode(c) + [j] + StmtCode(body, None), [back]);
    OneWf(j);
    OneWf(back);
  }

  /** The condition and body of an `if` or `while`, the branch still open. */
  method GenGuarded(b: Buffer) returns (ok: bool, patch: nat)
    requires AtRest(b)
    modifies b`data, b`code, b`fn, b`it, b`scope, b`rets
    ensures b.Valid()
    ensures var p := ParseTest(b.env, b.nodes, old(b.it), old(b.scope));
            && (ok <==> p.Some? && Need(p.value.0) <= 5 && Feasible(p.value.1.st))
            && (ok ==>
                var (c, q) := p.value;
                && b.code == old(b.code) + CondCode(c) + [Jcc(SkipCC(c), 0)] + StmtCode(q.st, None)
                && |b.data| == |old(b.data)| + Size(CondCode(c)) + JCC_SIZE + StmtSize(q.st)
                && b.rets == old(b.rets) + RetOffs(q.st, |old(b.data)| + Size(CondCode(c)) + JCC_SIZE)
                && b.it == q.it && b.it <= |b.nodes| && b.scope == q.sc
                && b.fn == old(b.fn).(csUsed := old(b.fn).csUsed + Picked(0, MaxInt(Need(c), NeedS(q.st))))
                && patch == |old(b.data)| + Size(CondCode(c)) + 2)
    decreases |b.nodes| - b.it, 3
  {
    hide Code, CondCode, SkipCC, EncodeAll, ParseExpr, ParseStmts, Need, NeedS, Picked, Reserved, StmtCode, StmtSize, RetOffs,
         Feasible, Size;
    ghost var c0 := b.code;
    DataSize(b);
    ghost var p := ParseTest(b.env, b.nodes, b.it, b.scope);
    ok, patch := GenJumpIfFalse(b);
    if !ok { return; }
    ghost var c := ParseExpr(b.env, b.nodes, old(b.it), old(b.scope)).value.0;
    GuardSize(c0, c);
    DataSize(b);
    ok := GenWork(b);
    if !ok { return; }
    PickedFacts(0, Need(c), NeedS(p.value.1.st));
    assert c0 + (CondCode(c) + [Jcc(SkipCC(c), 0)]) == c0 + CondCode(c) + [Jcc(SkipCC(c), 0)];
  }

  lemma GuardSize(c0: seq<Instr>, c: Expr)
    ensures Size(c0 + (CondCode(c) + [Jcc(SkipCC(c), 0)])) == Size(c0) + Size(CondCode(c)) + JCC_SIZE
  {
    hide Size, CondCode, SkipCC;
    SizeConcat(c0, CondCode(c) + [Jcc(SkipCC(c), 0)]);
    SizeConcat(CondCode(c), [Jcc(SkipCC(c), 0)]);
    JumpSizes(SkipCC(c), 0);
  }

  /** T_IF */
  method GenIf(b: Buffer) returns (ok: bool)
    requires AtRest(b)
    modifies b`data, b`code, b`fn, b`it, b`scope, b`rets
    ensures b.Valid()
    ensures var p := ParseTest(b.env, b.nodes, old(b.it), old(b.scope));
            && (ok <==> p.Some? && Feasible(If(p.value.0, p.value.1.st)))
            && (ok ==> Stated(b, old(b.code), old(b.fn), old(b.rets), |old(b.data)|,
                              p.value.1.(st := If(p.value.0, p.value.1.st))))
    decreases |b.nodes| - b.it, 4
  {
    hide Code, CondCode, SkipCC, EncodeAll, ParseTest, Need, NeedS, Picked, Reserved, StmtCode, StmtSize, RetOffs, Feasible,
         Size, Patched;
    ghost var c0, base := b.code, |b.data|;
    DataSize(b);
    ghost var p := ParseTest(b.env, b.nodes, b.it, b.scope);
    if p.Some? { IfFacts(p.value.0, p.value.1.st, base); }
    var patch;
    ok, patch := GenGuarded(b);
    if !ok { return; }
    ghost var c, body := p.value.0, p.value.1.st;
    ghost var j := Jcc(SkipCC(c), 0);
    SizeConcat(c0, CondCode(c));
    PatchCode(b.before, c0 + CondCode(c), j, StmtCode(body, None), |b.data|);
    ok := PatchRel(b, patch, |b.data|);
    if !ok { return; }
    b.code := c0 + CondCode(c) + [Jcc(SkipCC(c), StmtSize(body))] + StmtCode(body, None);
    AssocIf(c0, CondCode(c), [Jcc(SkipCC(c), StmtSize(body))], StmtCode(body, None));
  }

  lemma AssocIf(c0: seq<Instr>, a: seq<Instr>, b: seq<Instr>, c: seq<Instr>)
    ensures c0 + a + b + c == c0 + (a + b + c)
  {}

  /** The branch back to the condition, and the distance of the branch out. */
  method CloseLoop(b: Buffer, start: nat, patch: nat, ghost c0: seq<Instr>, ghost c: Expr, ghost body: Stmt)
    returns (ok: bool)
    requires b.Valid() && start == |b.before| + Size(c0)
    requires b.code == c0 + CondCode(c) + [Jcc(SkipCC(c), 0)] + StmtCode(body, None)
    requires patch == start + Size(CondCode(c)) + 2 && |b.data| == patch + 4 + StmtSize(body)
    modifies b`data, b`code
    ensures b.Valid()
    ensures ok <==> I32(StmtSize(body) + JMP_SIZE) && I32(Back(StmtSize(While(c, body))))
    ensures ok ==> b.code == c0 + StmtCode(While(c, body), None) && |b.data| == start + StmtSize(While(c, body))
  {
    hide Code, CondCode, SkipCC, EncodeAll, Encode, StmtCode, StmtSize, RetOffs, NeedS, Size, Patched;
    ghost var st := While(c, body);
    WhileFacts(c, body, start);
    ghost var j0 := Jcc(SkipCC(c), 0);
    ghost var head0, cb := c0 + CondCode(c) + [j0], StmtCode(body, None);
    WhileSizes(c0, c, body);
    JccBytes(0);
    b.Emit(Jmp(0));
    PatchCode(b.before, head0 + cb, Jmp(0), [], start);
    assert head0 + cb + [Jmp(0)] + [] == b.code;
    ok := PatchRel(b, |b.data| - 4, start);
    if !ok { return; }
    ghost var back := Jmp(Back(StmtSize(st)));
    b.code := head0 + cb + [back];
    assert head0 + cb + [back] + [] == head0 + cb + [back] == c0 + CondCode(c) + [j0] + (cb + [back]);
    PatchCode(b.before, c0 + CondCode(c), j0, cb + [back], |b.data|);
    ok := PatchRel(b, patch, |b.data|);
    if !ok { return; }
    ghost var j := Jcc(SkipCC(c), StmtSize(body) + JMP_SIZE);
    b.code := c0 + CondCode(c) + [j] + (cb + [back]);
    AssocWhile(c0, CondCode(c), [j], cb, [back]);
  }

  /** T_WHILE */
  method GenWhile(b: Buffer) returns (ok: bool)
    requires AtRest(b)
    modifies b`data, b`code, b`fn, b`it, b`scope, b`rets
    ensures b.Valid()
    ensures var p := ParseTest(b.env, b.nodes, old(b.it), old(b.scope));
            && (ok <==> p.Some? && Feasible(While(p.value.0, p.value.1.st)))
            && (ok ==> Stated(b, old(b.code), old(b.fn), old(b.rets), |old(b.data)|,
                              p.value.1.(st := While(p.value.0, p.value.1.st))))
    decreases |b.nodes| - b.it, 4
  {
    hide Code, CondCode, SkipCC, EncodeAll, Encode, ParseTest, Need, NeedS, Picked, Reserved, StmtCode, StmtSize, RetOffs,
         Feasible, Size;
    var start := |b.data|;
    ghost var c0 := b.code;
    DataSize(b);
    ghost var p := ParseTest(b.env, b.nodes, b.it, b.scope);
    if p.Some? {
      WhileFacts(p.value.0, p.value.1.st, start);
      WhileFeasible(p.value.0, p.value.1.st);
    }
    var patch;
    ok, patch := GenGuarded(b);
    if !ok { return; }
    ok := CloseLoop(b, start, patch, c0, p.value.0, p.value.1.st);
  }

  lemma AssocWhile(c0: seq<Instr>, a: seq<Instr>, b: seq<Instr>, c: seq<Instr>, d: seq<Instr>)
    ensures c0 + a + b + (c + d) == c0 + (a + b + c + d)
  {}

  lemma WhileSizes(c0: seq<Instr>, c: Expr, body: Stmt)
    ensures Size(c0 + CondCode(c)) == Size(c0) + Size(CondCode(c))
    ensures Size(c0 + CondCode(c) + [Jcc(SkipCC(c), 0)] + StmtCode(body, None))
         == Size(c0) + Size(CondCode(c)) + JCC_SIZE + StmtSize(body)
  {
    hide Size, CondCode, SkipCC, StmtCode, StmtSize;
    var head := c0 + CondCode(c) + [Jcc(SkipCC(c), 0)];
    SizeConcat(head, StmtCode(body, None));
    SizeConcat(c0 + CondCode(c), [Jcc(SkipCC(c), 0)]);
    SizeConcat(c0, CondCode(c));
    JumpSizes(SkipCC(c), 0);
    StmtSizeOk(body, None);
  }

  lemma ReturnFacts(e: Expr, base: nat)
    ensures var st := Return(e);
            && StmtCode(st, None) == Code(e, RAX, false, 0, 0, 0) + [Jmp(0)]
            && StmtSize(st) == Size(Code(e, RAX, false, 0, 0, 0)) + JMP_SIZE
            && RetOffs(st, base) == [base + Size(Code(e, RAX, false, 0, 0, 0)) + 1]
            && NeedS(st) == Need(e)
            && (Feasible(st) <==> Need(e) <= 5)
    ensures var st := ExprS(e);
            && StmtCode(st, None) == Code(e, RAX, true, 0, 0, 0)
            && StmtSize(st) == Size(Code(e, RAX, true, 0, 0, 0))
            && RetOffs(st, base) == []
            && NeedS(st) == Need(e)
            && (Feasible(st) <==> Need(e) <= 5)
  {
    hide Size, Code, AllWf, Need;
    CodePlain(e, RAX, false, 0, 0, 0);
    CodePlain(e, RAX, true, 0, 0, 0);
    PlainWf(Code(e, RAX, false, 0, 0, 0));
    PlainWf(Code(e, RAX, true, 0, 0, 0));
    AllWfSplit(Code(e, RAX, false, 0, 0, 0), [Jmp(0)]);
    OneWf(Jmp(0));
  }

  lemma AppendSizes(c0: seq<Instr>, c: seq<Instr>)
    ensures Size(c0 + c) == Size(c0) + Size(c)
    ensures Size(c + [Jmp(0)]) == Size(c) + JMP_SIZE
  {
    hide Size;
    SizeConcat(c0, c);
    SizeConcat(c, [Jmp(0)]);
    JumpSizes(0, 0);
  }

  /** T_RETURN: the branch to the epilogue is patched when that is known. */
  method GenReturn(b: Buffer) returns (ok: bool)
    requires AtRest(b)
    modifies b`data, b`code, b`fn, b`it, b`rets
    ensures b.Valid()
    ensures var p := ParseExpr(b.env, b.nodes, old(b.it), b.scope);
            && (ok <==> p.Some? && Feasible(Return(p.value.0)))
            && (ok ==> Stated(b, old(b.code), old(b.fn), old(b.rets), |old(b.data)|,
                              Parsed(Return(p.value.0), p.value.1, b.scope)))
    decreases |b.nodes| - b.it, 4
  {
    hide Code, EncodeAll, Encode, ParseExpr, Need, NeedS, Picked, Reserved, StmtCode, StmtSize, RetOffs, Feasible, Size;
    ghost var p := ParseExpr(b.env, b.nodes, b.it, b.scope);
    if p.Some? { ReturnFacts(p.value.0, |b.data|); }
    NoneReserved();
    assert TargetOk(RAX, 0) by { RaxOk(0); }
    DataSize(b);
    ok := CodegenExpr(b, RAX, false, 0, 0);
    if !ok { return; }
    DataSize(b);
    AppendSizes(old(b.code), Code(p.value.0, RAX, false, 0, 0, 0));
    JccBytes(0);
    b.Emit(Jmp(0));
    b.rets := b.rets + [|b.data| - 4];
  }

  /** An expression statement, in address mode. */
  method GenExprStmt(b: Buffer) returns (ok: bool)
    requires AtRest(b)
    modifies b`data, b`code, b`fn, b`it
    ensures b.Valid()
    ensures var p := ParseExpr(b.env, b.nodes, old(b.it), b.scope);
            && (ok <==> p.Some? && Feasible(ExprS(p.value.0)))
            && (ok ==> Stated(b, old(b.code), old(b.fn), old(b.rets), |old(b.data)|,
                              Parsed(ExprS(p.value.0), p.value.1, b.scope)))
    decreases |b.nodes| - b.it, 4
  {
    hide Code, EncodeAll, Encode, ParseExpr, Need, NeedS, Picked, Reserved, StmtCode, StmtSize, RetOffs, Feasible, Size;
    ghost var p := ParseExpr(b.env, b.nodes, b.it, b.scope);
    if p.Some? { ReturnFacts(p.value.0, |b.data|); }
    NoneReserved();
    assert TargetOk(RAX, 0) by { RaxOk(0); }
    DataSize(b);
    ok := CodegenExpr(b, RAX, true, 0, 0);
    if !ok { return; }
    DataSize(b);
    AppendSizes(old(b.code), Code(p.value.0, RAX, true, 0, 0, 0));
  }

  lemma StmtCases(E: Env, ns: seq<Node>, i: nat, sc: nat)
    requires i < |ns|
    ensures TokenAt(ns, i) == TIf ==>
              ParseStmt(E, ns, i, sc) == match ParseTest(E, ns, i + 1, sc)
                                         case Some((c, p)) => Some(p.(st := If(c, p.st)))
                                         case None => None
    ensures TokenAt(ns, i) == TWhile ==>
              ParseStmt(E, ns, i, sc) == match ParseTest(E, ns, i + 1, sc)
                                         case Some((c, p)) => Some(p.(st := While(c, p.st)))
                                         case None => None
    ensures TokenAt(ns, i) == TReturn ==>
              ParseStmt(E, ns, i, sc) == match ParseExpr(E, ns, i + 1, sc)
                                         case Some((e, j)) => Some(Parsed(Return(e), j, sc))
                                         case None => None
    ensures TokenAt(ns, i) !in {TIf, TWhile, TReturn} ==>
              ParseStmt(E, ns, i, sc) == match ParseExpr(E, ns, i, sc)
                                         case Some((e, j)) => Some(Parsed(ExprS(e), j, sc))
                                         case None => None
  {
    hide ParseExpr, ParseTest;
  }

  /** One whole statement. */
  method GenStatement(b: Buffer) returns (ok: bool)
    requires AtRest(b) && b.it < |b.nodes|
    modifies b`data, b`code, b`fn, b`it, b`scope, b`rets
    ensures b.Valid()
    ensures var p := ParseStmt(b.env, b.nodes, old(b.it), old(b.scope));
            && (ok <==> p.Some? && Feasible(p.value.st))
            && (ok ==> Stated(b, old(b.code), old(b.fn), old(b.rets), |old(b.data)|, p.value))
    decreases |b.nodes| - b.it, 0
  {
    hide Code, EncodeAll, ParseExpr, ParseTest, ParseStmt, Feasible, Stated, StmtCode, NeedS, StmtSize, RetOffs, AllWf, Picked,
         LeafSize, Need, PairExpr, CondCode, Reserved, Encode, BinOpOf;
    StmtCases(b.env, b.nodes, b.it, b.scope);
    var t := TokenAt(b.nodes, b.it);
    if t == TIf {
      b.it := b.it + 1;
      ok := GenIf(b);
    } else if t == TWhile {
      b.it := b.it + 1;
      ok := GenWhile(b);
    } else if t == TReturn {
      b.it := b.it + 1;
      ok := GenReturn(b);
    } else {
      ok := GenExprStmt(b);
    }
  }

  /** codegen_expr in statement position: a whole statement, or a block or comma
      node, which only says how many members follow. */
  method CodegenNode(b: Buffer) returns (ok: bool, more: nat)
    requires AtRest(b)
    modifies b`data, b`code, b`fn, b`it, b`scope, b`rets
    ensures b.Valid()
    ensures var i, sc := old(b.it), old(b.scope);
            if i < |b.nodes| && TokenAt(b.nodes, i) in {NBlock, TComma} then
              && (ok <==> Payload(b.nodes, i + 1).Some?)
              && (ok ==> more == Payload(b.nodes, i + 1).value && b.it == i + 2 <= |b.nodes|
                         && b.scope == (if TokenAt(b.nodes, i) == NBlock then sc + 1 else sc)
                         && b.data == old(b.data) && b.code == old(b.code) && b.fn == old(b.fn) && b.rets == old(b.rets))
            else
              var p := if i < |b.nodes| then ParseStmt(b.env, b.nodes, i, sc) else None;
              && (ok <==> p.Some? && Feasible(p.value.st))
              && (ok ==> more == 0 && Stated(b, old(b.code), old(b.fn), old(b.rets), |old(b.data)|, p.value))
    decreases |b.nodes| - b.it, 1
  {
    hide Code, EncodeAll, ParseExpr, ParseTest, Feasible, Stated, StmtCode, NeedS, StmtSize, RetOffs, AllWf, Picked, LeafSize, Need,
         PairExpr, CondCode, Reserved;
    more := 0;
    if b.it >= |b.nodes| { return false, 0; }
    var t := TokenAt(b.nodes, b.it);
    if t == NBlock || t == TComma {
      if t == NBlock { b.scope := b.scope + 1; }
      var m := Payload(b.nodes, b.it + 1);
      if m.None? { return false, 0; }
      b.it := b.it + 2;
      return true, m.value;
    }
    ok := GenStatement(b);
  }

  /** What is still to do when `left` statements follow, seen from the start. */
  ghost predicate WorkLeft(b: Buffer, c0: seq<Instr>, f0: FnState, rets0: seq<nat>, base: nat, all: Option<Parsed>, left: nat)
    reads b
  {
    && AtRest(b) && b.fn == f0.(csUsed := b.fn.csUsed)
    && var rest := ParseStmts(b.env, b.nodes, b.it, b.scope, left);
    && (all.Some? <==> rest.Some?)
    && (all.Some? ==>
      && rest.value.it == all.value.it && rest.value.sc == all.value.sc
      && b.code + StmtCode(rest.value.st, None) == c0 + StmtCode(all.value.st, None)
      && |b.data| + StmtSize(rest.value.st) == base + StmtSize(all.value.st)
      && b.rets + RetOffs(rest.value.st, |b.data|) == rets0 + RetOffs(all.value.st, base)
      && (Feasible(all.value.st) <==> Feasible(rest.value.st))
      && b.fn.csUsed + Picked(0, NeedS(rest.value.st)) == f0.csUsed + Picked(0, NeedS(all.value.st)))
  }

  lemma WorkParse(E: Env, ns: seq<Node>, i: nat, sc: nat, n: nat)
    ensures ParseStmts(E, ns, i, sc, 0) == Some(Parsed(Skip, i, sc))
    ensures n > 0 ==> ParseStmts(E, ns, i, sc, n) == NextWork(E, ns, i, sc, n)
  {
    hide ParseStmt;
  }

  /** The first of n statements, then the rest. */
  function NextWork(E: Env, ns: seq<Node>, i: nat, sc: nat, n: nat): Option<Parsed>
    requires n > 0
  {
    if i >= |ns| then None
    else if TokenAt(ns, i) in {NBlock, TComma} then
      match Payload(ns, i + 1)
      case Some(m) => ParseStmts(E, ns, i + 2, if TokenAt(ns, i) == NBlock then sc + 1 else sc, n - 1 + m)
      case None => None
    else
      match ParseStmt(E, ns, i, sc)
      case None => None
      case Some(Parsed(a, i1, sc1)) => Before(a, ParseStmts(E, ns, i1, sc1, n - 1))
  }

  function Before(a: Stmt, rest: Option<Parsed>): Option<Parsed> {
    match rest
    case Some(Parsed(s, i, sc)) => Some(Parsed(Seq(a, s), i, sc))
    case None => None
  }

  lemma SeqFacts(a: Stmt, b: Stmt, base: nat)
    ensures StmtCode(Seq(a, b), None) == StmtCode(a, None) + StmtCode(b, None)
    ensures StmtSize(Seq(a, b)) == StmtSize(a) + StmtSize(b)
    ensures RetOffs(Seq(a, b), base) == RetOffs(a, base) + RetOffs(b, base + StmtSize(a))
    ensures NeedS(Seq(a, b)) == MaxInt(NeedS(a), NeedS(b))
    ensures Feasible(Seq(a, b)) <==> Feasible(a) && Feasible(b)
    ensures Picked(0, NeedS(a)) + Picked(0, NeedS(b)) == Picked(0, NeedS(Seq(a, b)))
  {
    hide AllWf, Picked, Size, Code, CondCode, SkipCC, EncodeAll, Need;
    AllWfSplit(StmtCode(a, None), StmtCode(b, None));
    PickedFacts(0, NeedS(a), NeedS(b));
  }

  lemma SkipFacts(base: nat)
    ensures StmtCode(Skip, None) == [] && StmtSize(Skip) == 0 && RetOffs(Skip, base) == [] && NeedS(Skip) == 0
    ensures Feasible(Skip) && Picked(0, 0) == {}
  {}

  /** One statement of the work done. */
  lemma WorkStep(b: Buffer, c0: seq<Instr>, f0: FnState, rets0: seq<nat>, base: nat, all: Option<Parsed>, left: nat,
                 c1: seq<Instr>, f1: FnState, rets1: seq<nat>, base1: nat, i1: nat, sc1: nat, p: Parsed)
    requires b.Valid() && left > 0 && f1 == f0.(csUsed := f1.csUsed) && f0.busy == {} && f0.depth == 0
    requires Stated(b, c1, f1, rets1, base1, p) && Feasible(p.st)
    requires var one := ParseStmts(b.env, b.nodes, i1, sc1, left);
             var rest := ParseStmts(b.env, b.nodes, p.it, p.sc, left - 1);
             && one == Before(p.st, rest)
             && (all.Some? <==> one.Some?)
             && (all.Some? ==>
               && one.value.it == all.value.it && one.value.sc == all.value.sc
               && c1 + StmtCode(one.value.st, None) == c0 + StmtCode(all.value.st, None)
               && base1 + StmtSize(one.value.st) == base + StmtSize(all.value.st)
               && rets1 + RetOffs(one.value.st, base1) == rets0 + RetOffs(all.value.st, base)
               && (Feasible(all.value.st) <==> Feasible(one.value.st))
               && f1.csUsed + Picked(0, NeedS(one.value.st)) == f0.csUsed + Picked(0, NeedS(all.value.st)))
    ensures WorkLeft(b, c0, f0, rets0, base, all, left - 1)
  {
    hide ParseStmts, StmtCode, StmtSize, RetOffs, NeedS, Feasible, Picked, EncodeAll;
    var rest := ParseStmts(b.env, b.nodes, p.it, p.sc, left - 1);
    if rest.Some? {
      var s := rest.value.st;
      SeqFacts(p.st, s, base1);
      assert c1 + (StmtCode(p.st, None) + StmtCode(s, None)) == c1 + StmtCode(p.st, None) + StmtCode(s, None);
      assert rets1 + (RetOffs(p.st, base1) + RetOffs(s, |b.data|)) == rets1 + RetOffs(p.st, base1) + RetOffs(s, |b.data|);
    }
  }

  /** One statement, block members and all: the count grows while it is worked
      off. */
  method GenWork(b: Buffer) returns (ok: bool)
    requires AtRest(b)
    modifies b`data, b`code, b`fn, b`it, b`scope, b`rets
    ensures b.Valid()
    ensures var p := ParseStmts(b.env, b.nodes, old(b.it), old(b.scope), 1);
            && (ok <==> p.Some? && Feasible(p.value.st))
            && (ok ==> Stated(b, old(b.code), old(b.fn), old(b.rets), |old(b.data)|, p.value))
    decreases |b.nodes| - b.it, 2
  {
    hide ParseStmts, ParseStmt, StmtCode, StmtSize, RetOffs, NeedS, Feasible, Picked, EncodeAll, Stated;
    ghost var c0, f0, rets0, base := b.code, b.fn, b.rets, |b.data|;
    ghost var all := ParseStmts(b.env, b.nodes, b.it, b.scope, 1);
    var count, j: nat := 1, 0;
    while j < count
      invariant j <= count && old(b.it) <= b.it
      invariant WorkLeft(b, c0, f0, rets0, base, all, count - j)
      decreases |b.nodes| - b.it
    {
      ghost var c1, f1, rets1, base1, i1, sc1 := b.code, b.fn, b.rets, |b.data|, b.it, b.scope;
      WorkParse(b.env, b.nodes, i1, sc1, count - j);
      ghost var rest := ParseStmts(b.env, b.nodes, i1, sc1, count - j);
      var more;
      ok, more := CodegenNode(b);
      if !ok {
        if rest.Some? && Feasible(rest.value.st) { FirstFails(b.env, b.nodes, i1, sc1, count - j); }
        return;
      }
      count := count + more;
      if TokenAt(b.nodes, i1) !in {NBlock, TComma} {
        ghost var p := ParseStmt(b.env, b.nodes, i1, sc1).value;
        StatedIt(b, c1, f1, rets1, base1, p);
        WorkStep(b, c0, f0, rets0, base, all, count - j, c1, f1, rets1, base1, i1, sc1, p);
      }
      j := j + 1;
    }
    ok := true;
    WorkParse(b.env, b.nodes, b.it, b.scope, 0);
    SkipFacts(|b.data|);
    WorkDone(b, c0, f0, rets0, base, all);
  }

  lemma StatedIt(b: Buffer, c1: seq<Instr>, f1: FnState, rets1: seq<nat>, base1: nat, p: Parsed)
    requires Stated(b, c1, f1, rets1, base1, p)
    ensures b.it == p.it && b.scope == p.sc
  {}

  /** The work cannot be done when its first statement cannot. */
  lemma FirstFails(E: Env, ns: seq<Node>, i: nat, sc: nat, n: nat)
    requires n > 0
    requires ParseStmts(E, ns, i, sc, n).Some? && Feasible(ParseStmts(E, ns, i, sc, n).value.st)
    ensures i < |ns|
    ensures TokenAt(ns, i) in {NBlock, TComma} ==> Payload(ns, i + 1).Some?
    ensures TokenAt(ns, i) !in {NBlock, TComma} ==>
              ParseStmt(E, ns, i, sc).Some? && Feasible(ParseStmt(E, ns, i, sc).value.st)
  {
    hide ParseStmt, Feasible;
    var rest := ParseStmts(E, ns, i, sc, n);
    if rest.Some? && TokenAt(ns, i) !in {NBlock, TComma} {
      var Seq(a, s) := rest.value.st;
      SeqFacts(a, s, 0);
    }
  }

  lemma WorkDone(b: Buffer, c0: seq<Instr>, f0: FnState, rets0: seq<nat>, base: nat, all: Option<Parsed>)
    requires WorkLeft(b, c0, f0, rets0, base, all, 0)
    ensures all.Some? && Feasible(all.value.st) && Stated(b, c0, f0, rets0, base, all.value)
  {
    hide StmtCode, StmtSize, RetOffs, NeedS, Feasible, Picked, EncodeAll;
    WorkParse(b.env, b.nodes, b.it, b.scope, 0);
    SkipFacts(|b.data|);
  }
}
