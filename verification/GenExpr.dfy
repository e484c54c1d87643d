/** codegen_expr and gen_binary over the node stream. Each method succeeds
    exactly when the stream holds a tree whose need for saved registers can be
    met, and then appends exactly the code Select gives for that tree. */
module GenExpr {
  import opened Words
  import opened Isa
  import opened IsaRoundTrip
  import opened Machine
  import opened Source
  import opened Select
  import opened ExprBasics
  import opened ExprCalls
  import opened NodeStream
  import opened GenState

  /** What must hold to generate an expression into treg. */
  ghost predicate CanStart(b: Buffer, treg: Reg, k: nat, j: nat)
    reads b
  {
    b.Valid() && b.fn.busy == Reserved(k, j) && j <= k <= 5 && TargetOk(treg, j) && b.it <= |b.nodes|
  }

  method CodegenExpr(b: Buffer, treg: Reg, addr: bool, ghost k: nat, ghost j: nat) returns (ok: bool)
    requires CanStart(b, treg, k, j)
    modifies b`data, b`code, b`fn, b`it
    ensures b.Valid()
    ensures var p := ParseExpr(b.env, b.nodes, old(b.it), b.scope);
            && (ok <==> p.Some? && k + Need(p.value.0) <= 5)
            && (ok ==> b.Produced(old(b.code), old(b.fn), Code(p.value.0, treg, addr, k, j, old(b.fn.depth)),
                                  p.value.1, k, Need(p.value.0)))
    decreases |b.nodes| - b.it, 1
  {
    hide Code, LeafCode, LeafAt, LeafSize, EncodeAll, Reserved, Picked, ParseExpr, ParsePair, Need, TargetOk;
    var i := b.it;
    ParseCases(b.env, b.nodes, i, b.scope);
    if i >= |b.nodes| { return false; }
    var t := TokenAt(b.nodes, i);
    var size := LeafSize(b.nodes, i);
    if size > 0 {
      ok := b.GenLeaf(treg, addr, i);
      if ok {
        b.it := i + size;
        LeafIsCode(LeafAt(b.env, b.nodes, i, b.scope).value, treg, addr, k, j, b.fn.depth);
        PickedFacts(k, 0, 0);
      }
    } else if t == NArray {
      ok := GenArray(b, treg, addr, k, j);
    } else if t == TCall {
      ok := GenCall(b, treg, addr, k, j);
    } else if t == TOsb {
      b.it := i + 1;
      ok := GenIndex(b, treg, addr, k, j);
    } else if t == TEq {
      b.it := i + 1;
      ok := GenAssign(b, treg, addr, k, j);
    } else if t == TAddEq {
      b.it := i + 1;
      ok := GenAddAssign(b, treg, addr, k, j);
    } else if BinOpOf(t).Some? {
      b.it := i + 1;
      ok := GenBinary(b, BinOpOf(t).value, treg, addr, false, k, j);
    } else {
      ok := false;
    }
  }

  lemma LeafIsCode(e: Expr, t: Reg, addr: bool, k: nat, j: nat, d: nat)
    requires IsLeaf(e)
    ensures Code(e, t, addr, k, j, d) == LeafCode(e, t, addr) && Need(e) == 0
  {}

  // ---------------------------------------------------------- right operands

  /** The register a right operand leaves reserved: the scratch register of a
      leaf, or the saved register that holds the left value. */
  function RightReg(e: Expr, k: nat, j: nat): Reg { if IsLeaf(e) then Scratch(j) else Saved(k) }

  /** A leaf into a scratch register; for a tree, the left value into a saved
      register and the tree into t. */
  function RightCode(e: Expr, t: Reg, k: nat, j: nat, d: nat): seq<Instr> {
    if IsLeaf(e) then LeafCode(e, Scratch(j), false)
    else Mov(Saved(k), t) + Code(e, t, false, k + 1, j, d)
  }

  ghost function RightBusy(e: Expr, k: nat, j: nat): set<Reg> {
    if IsLeaf(e) then Reserved(k, j + 1) else Reserved(k + 1, j)
  }

  method RightOperand(b: Buffer, treg: Reg, ghost k: nat, ghost j: nat) returns (ok: bool, leaf: bool, r: Reg)
    requires CanStart(b, treg, k, j)
    modifies b`data, b`code, b`fn, b`it
    ensures b.Valid()
    ensures var p := ParseExpr(b.env, b.nodes, old(b.it), b.scope);
            && (ok <==> p.Some? && k + NeedRight(p.value.0) <= 5)
            && (ok ==> var (e, i') := p.value;
                       && leaf == IsLeaf(e) && r == RightReg(e, k, j) && b.it == i'
                       && b.code == old(b.code) + RightCode(e, treg, k, j, old(b.fn.depth))
                       && b.fn == FnState(RightBusy(e, k, j), old(b.fn.csUsed) + Picked(k, NeedRight(e)),
                                          old(b.fn.depth)))
    decreases |b.nodes| - b.it, 2
  {
    hide LeafAt, LeafSize, LeafCode, EncodeAll, Reserved, Picked, ParseExpr, Code, Need, Mov, TargetOk;
    PoolFacts(treg, j);
    var i, size := b.it, LeafSize(b.nodes, b.it);
    ParseCases(b.env, b.nodes, i, b.scope);
    if ParseExpr(b.env, b.nodes, i, b.scope).Some? {
      LeafParse(b.env, b.nodes, i, b.scope);
    }
    if size > 0 {
      var q := b.PickScratch(treg, k, j);
      leaf, r := true, q.value;
      ok := b.GenLeaf(r, false, i);
      if ok { b.it := i + size; PickedFacts(k, 0, 0); }
    } else {
      leaf, r := false, 0;
      var q := b.PickSaved(treg, k, j);
      if q.None? { return false, false, 0; }
      r := q.value;
      b.EmitMov(r, treg);
      ok := CodegenExpr(b, treg, false, k + 1, j);
      if ok {
        PickedFacts(k, Need(ParseExpr(b.env, b.nodes, i, b.scope).value.0), 0);
      }
    }
  }

  /** The right operand's register is given back. */
  method Release(b: Buffer, r: Reg, ghost e: Expr, ghost k: nat, ghost j: nat)
    requires b.fn.busy == RightBusy(e, k, j) && r == RightReg(e, k, j)
    requires j <= k <= 5 && (!IsLeaf(e) ==> k < 5)
    modifies b`fn
    ensures b.fn == old(b.fn).(busy := Reserved(k, j))
  {
    if k < 5 { ReserveSaved(k, j); }
    ReserveScratch(k, j);
    b.RegFree(r);
  }

  /** The operands of a pair token: where the right one starts, what both need. */
  lemma PairNeeds(E: Env, ns: seq<Node>, i: nat, sc: nat, k: nat)
    requires i <= |ns|
    ensures var l := ParseExpr(E, ns, i, sc);
            ParsePair(E, ns, i, sc).Some? <==> l.Some? && ParseExpr(E, ns, l.value.1, sc).Some?
    ensures ParsePair(E, ns, i, sc).Some? ==>
              var (a, b, i') := ParsePair(E, ns, i, sc).value;
              ParseExpr(E, ns, ParseExpr(E, ns, i, sc).value.1, sc) == Some((b, i'))
              && ParseExpr(E, ns, i, sc).value.0 == a
              && Picked(k, Need(a)) + Picked(k, NeedRight(b)) == Picked(k, MaxInt(Need(a), NeedRight(b)))
  {
    hide ParseExpr, Picked;
    if ParsePair(E, ns, i, sc).Some? {
      var p := ParsePair(E, ns, i, sc).value;
      PickedFacts(k, Need(p.0), NeedRight(p.1));
    }
  }

  lemma LeafNeed(e: Expr)
    ensures IsLeaf(e) ==> NeedRight(e) == 0 && Need(e) == 0
  {}

  lemma RightFits(e: Expr, k: nat)
    requires k + NeedRight(e) <= 5
    ensures !IsLeaf(e) ==> k < 5
  {}

  // ------------------------------------------------------------------ tokens

  /** Index code behind the base: the scaled index added to t. */
  function IndexTail(i: Expr, t: Reg, k: nat, j: nat, d: nat): seq<Instr> {
    if SmallIndex(i) then (if i.n == 0 then [] else [AluImm(AddOp, t, 8 * i.n)])
    else RightCode(i, t, k, j, d) + [if IsLeaf(i) then LeaIdx8(t, t, Scratch(j)) else LeaIdx8(t, Saved(k), t)]
  }

  lemma IndexShape(a: Expr, i: Expr, t: Reg, addr: bool, k: nat, j: nat, d: nat)
    ensures Need(Index(a, i)) == MaxInt(Need(a), NeedRight(i))
    ensures Code(Index(a, i), t, addr, k, j, d)
         == Code(a, t, false, k, j, d) + IndexTail(i, t, k, j, d) + (if addr then [] else [Load(t, t, 0)])
  {
    hide LeafCode, Mov;
  }

  /** The index, added eightfold to the base in treg. */
  method IndexRight(b: Buffer, treg: Reg, ghost k: nat, ghost j: nat) returns (ok: bool)
    requires CanStart(b, treg, k, j)
    modifies b`data, b`code, b`fn, b`it
    ensures b.Valid()
    ensures var p := ParseExpr(b.env, b.nodes, old(b.it), b.scope);
            && (ok <==> p.Some? && k + NeedRight(p.value.0) <= 5)
            && (ok ==> b.Produced(old(b.code), old(b.fn), IndexTail(p.value.0, treg, k, j, old(b.fn.depth)),
                                  p.value.1, k, NeedRight(p.value.0)))
    decreases |b.nodes| - b.it, 3
  {
    hide Code, RightCode, EncodeAll, Reserved, Picked, ParseExpr, ParsePair, Need, NeedRight, TargetOk, RightBusy,
         LeafAt, LeafSize, LeafCode, Mov, AluImmCode, AluRRCode, BinCode;
    ghost var p := ParseExpr(b.env, b.nodes, b.it, b.scope);
    if p.Some? { LeafParse(b.env, b.nodes, b.it, b.scope); }
    var imm := SmallImmAt(b.nodes, b.it);
    if imm.Some? && imm.value <= INT32_MAX / 8 {
      SmallParse(b.env, b.nodes, b.it, b.scope);
      LeafNeed(p.value.0);
      PickedFacts(k, 0, 0);
      b.it := b.it + 2;
      if imm.value != 0 { b.Emit(AluImm(AddOp, treg, 8 * imm.value)); }
      return true;
    }
    var leaf, r;
    ok, leaf, r := RightOperand(b, treg, k, j);
    if !ok { return; }
    b.Emit(if leaf then LeaIdx8(treg, treg, r) else LeaIdx8(treg, r, treg));
    RightFits(p.value.0, k);
    Release(b, r, p.value.0, k, j);
  }

  /** T_OSB: element i lives at base + i*8. */
  method GenIndex(b: Buffer, treg: Reg, addr: bool, ghost k: nat, ghost j: nat)
    returns (ok: bool)
    requires CanStart(b, treg, k, j)
    modifies b`data, b`code, b`fn, b`it
    ensures b.Valid()
    ensures var p := ParsePair(b.env, b.nodes, old(b.it), b.scope);
            && (ok <==> p.Some? && k + Need(Index(p.value.0, p.value.1)) <= 5)
            && (ok ==> b.Produced(old(b.code), old(b.fn),
                                  Code(Index(p.value.0, p.value.1), treg, addr, k, j, old(b.fn.depth)),
                                  p.value.2, k, Need(Index(p.value.0, p.value.1))))
    decreases |b.nodes| - b.it, 4
  {
    hide Code, RightCode, EncodeAll, Reserved, Picked, ParseExpr, ParsePair, Need, NeedRight, TargetOk, RightBusy,
         LeafAt, LeafSize, LeafCode, Mov, AluImmCode, AluRRCode, BinCode;
    ghost var p := ParsePair(b.env, b.nodes, b.it, b.scope);
    PairNeeds(b.env, b.nodes, b.it, b.scope, k);
    if p.Some? { IndexShape(p.value.0, p.value.1, treg, addr, k, j, b.fn.depth); }
    hide IndexTail;
    ok := CodegenExpr(b, treg, false, k, j);
    if !ok { return; }
    ok := IndexRight(b, treg, k, j);
    if !ok { return; }
    if !addr { b.Emit(Load(treg, treg, 0)); }
    if p.Some? {
      Assoc3(old(b.code), Code(p.value.0, treg, false, k, j, old(b.fn.depth)), IndexTail(p.value.1, treg, k, j, old(b.fn.depth)),
             if addr then [] else [Load(treg, treg, 0)]);
    }
  }

  lemma Assoc3(c0: seq<Instr>, a: seq<Instr>, b: seq<Instr>, c: seq<Instr>)
    ensures c0 + a + b + c == c0 + (a + b + c)
  {}

  /** Assignment code behind the target's address in t. */
  function AssignTail(v: Expr, t: Reg, k: nat, j: nat, d: nat): seq<Instr> {
    RightCode(v, t, k, j, d)
    + (if IsLeaf(v) then [Store(t, 0, Scratch(j))] + Mov(t, Scratch(j)) else [Store(Saved(k), 0, t)])
  }

  /** Assignment code behind the value in t, to a cell of known address. */
  function CellTail(a: u64, t: Reg, j: nat): seq<Instr> {
    if t == RAX then [StoreRaxAbs(a)] else [MovImm64(Scratch(j), a), Store(Scratch(j), 0, t)]
  }

  lemma AssignShape(a: Expr, v: Expr, t: Reg, addr: bool, k: nat, j: nat, d: nat)
    ensures Need(Assign(a, v)) == if a.Cell? then Need(v) else MaxInt(Need(a), NeedRight(v))
    ensures Code(Assign(a, v), t, addr, k, j, d)
         == if a.Cell? then Code(v, t, false, k, j, d) + CellTail(a.addr, t, j)
            else Code(a, t, true, k, j, d) + AssignTail(v, t, k, j, d)
  {
    hide LeafCode, Mov;
  }

  /** The value, stored where treg points to; it stays in treg. */
  method AssignRight(b: Buffer, treg: Reg, ghost k: nat, ghost j: nat) returns (ok: bool)
    requires CanStart(b, treg, k, j)
    modifies b`data, b`code, b`fn, b`it
    ensures b.Valid()
    ensures var p := ParseExpr(b.env, b.nodes, old(b.it), b.scope);
            && (ok <==> p.Some? && k + NeedRight(p.value.0) <= 5)
            && (ok ==> b.Produced(old(b.code), old(b.fn), AssignTail(p.value.0, treg, k, j, old(b.fn.depth)),
                                  p.value.1, k, NeedRight(p.value.0)))
    decreases |b.nodes| - b.it, 3
  {
    hide Code, RightCode, EncodeAll, Reserved, Picked, ParseExpr, ParsePair, Need, NeedRight, TargetOk, RightBusy,
         LeafAt, LeafSize, LeafCode, Mov, AluImmCode, AluRRCode, BinCode;
    ghost var p := ParseExpr(b.env, b.nodes, b.it, b.scope);
    if p.Some? { LeafParse(b.env, b.nodes, b.it, b.scope); }
    var leaf, r;
    ok, leaf, r := RightOperand(b, treg, k, j);
    if !ok { return; }
    if leaf {
      b.Emit(Store(treg, 0, r));
      b.EmitMov(treg, r);
    } else {
      b.Emit(Store(r, 0, treg));
    }
    RightFits(p.value.0, k);
    Release(b, r, p.value.0, k, j);
  }

  /** T_EQ: the target is read before the value. */
  method GenAssign(b: Buffer, treg: Reg, addr: bool, ghost k: nat, ghost j: nat)
    returns (ok: bool)
    requires CanStart(b, treg, k, j)
    modifies b`data, b`code, b`fn, b`it
    ensures b.Valid()
    ensures var p := ParsePair(b.env, b.nodes, old(b.it), b.scope);
            && (ok <==> p.Some? && k + Need(Assign(p.value.0, p.value.1)) <= 5)
            && (ok ==> b.Produced(old(b.code), old(b.fn),
                                  Code(Assign(p.value.0, p.value.1), treg, addr, k, j, old(b.fn.depth)),
                                  p.value.2, k, Need(Assign(p.value.0, p.value.1))))
    decreases |b.nodes| - b.it, 4
  {
    hide Code, RightCode, EncodeAll, Reserved, Picked, ParseExpr, ParsePair, Need, NeedRight, TargetOk, RightBusy,
         LeafAt, LeafSize, LeafCode, Mov, AluImmCode, AluRRCode, BinCode;
    ghost var p := ParsePair(b.env, b.nodes, b.it, b.scope);
    PairNeeds(b.env, b.nodes, b.it, b.scope, k);
    if p.Some? {
      AssignShape(p.value.0, p.value.1, treg, addr, k, j, b.fn.depth);
      CellParse(b.env, b.nodes, b.it, b.scope);
    }
    hide AssignTail, CellTail;
    if CellAt(b.nodes, b.it) {
      ok := AssignToCell(b, treg, addr, k, j);
      return;
    }
    ok := CodegenExpr(b, treg, true, k, j);
    if !ok { return; }
    ok := AssignRight(b, treg, k, j);
  }

  /** A destination of known address needs no register of its own before the
      value is there. */
  method AssignToCell(b: Buffer, treg: Reg, addr: bool, ghost k: nat, ghost j: nat) returns (ok: bool)
    requires CanStart(b, treg, k, j) && CellAt(b.nodes, b.it)
    modifies b`data, b`code, b`fn, b`it
    ensures b.Valid()
    ensures var p := ParsePair(b.env, b.nodes, old(b.it), b.scope);
            && (ok <==> p.Some? && k + Need(Assign(p.value.0, p.value.1)) <= 5)
            && (ok ==> b.Produced(old(b.code), old(b.fn),
                                  Code(Assign(p.value.0, p.value.1), treg, addr, k, j, old(b.fn.depth)),
                                  p.value.2, k, Need(Assign(p.value.0, p.value.1))))
    decreases |b.nodes| - b.it, 3
  {
    hide Code, EncodeAll, Reserved, Picked, ParseExpr, ParsePair, Need, LeafAt, LeafSize, CellTail, TargetOk;
    ghost var p := ParsePair(b.env, b.nodes, b.it, b.scope);
    PairNeeds(b.env, b.nodes, b.it, b.scope, k);
    ParseCases(b.env, b.nodes, b.it, b.scope);
    if p.Some? {
      AssignShape(p.value.0, p.value.1, treg, addr, k, j, b.fn.depth);
      CellParse(b.env, b.nodes, b.it, b.scope);
    }
    var cell := LeafAt(b.env, b.nodes, b.it, b.scope);
    if cell.None? { return false; }
    CellParse(b.env, b.nodes, b.it, b.scope);
    b.it := b.it + LeafSize(b.nodes, b.it);
    ok := CodegenExpr(b, treg, false, k, j);
    if !ok { return; }
    StoreCell(b, cell.value.addr, treg, k, j);
  }

  /** The value in treg, stored in a cell. */
  method StoreCell(b: Buffer, a: u64, treg: Reg, ghost k: nat, ghost j: nat)
    requires b.Valid() && b.fn.busy == Reserved(k, j) && j <= k <= 5 && TargetOk(treg, j)
    modifies b`data, b`code, b`fn
    ensures b.Valid() && b.code == old(b.code) + CellTail(a, treg, j) && b.fn == old(b.fn)
  {
    hide EncodeAll, Encode, Reserved, TargetOk;
    if treg == RAX {
      b.Emit(StoreRaxAbs(a));
    } else {
      PoolFacts(treg, j);
      var q := b.PickScratch(treg, k, j);
      b.Emit(MovImm64(q.value, a));
      b.Emit(Store(q.value, 0, treg));
      ReserveScratch(k, j);
      b.RegFree(q.value);
    }
  }

  /** += code behind the target's address in t. */
  function AddAssignTail(v: Expr, t: Reg, k: nat, j: nat, d: nat): seq<Instr> {
    RightCode(v, t, k, j, d)
    + (if IsLeaf(v) then [AddMem(t, 0, Scratch(j)), Load(t, t, 0)] else [AddMem(Saved(k), 0, t), Load(t, Saved(k), 0)])
  }

  lemma AddAssignShape(a: Expr, v: Expr, t: Reg, addr: bool, k: nat, j: nat, d: nat)
    ensures Need(AddAssign(a, v)) == MaxInt(Need(a), NeedRight(v))
    ensures Code(AddAssign(a, v), t, addr, k, j, d) == Code(a, t, true, k, j, d) + AddAssignTail(v, t, k, j, d)
  {
    hide LeafCode, Mov;
  }

  /** The value, added to the cell treg points to; treg gets the sum. */
  method AddAssignRight(b: Buffer, treg: Reg, ghost k: nat, ghost j: nat) returns (ok: bool)
    requires CanStart(b, treg, k, j)
    modifies b`data, b`code, b`fn, b`it
    ensures b.Valid()
    ensures var p := ParseExpr(b.env, b.nodes, old(b.it), b.scope);
            && (ok <==> p.Some? && k + NeedRight(p.value.0) <= 5)
            && (ok ==> b.Produced(old(b.code), old(b.fn), AddAssignTail(p.value.0, treg, k, j, old(b.fn.depth)),
                                  p.value.1, k, NeedRight(p.value.0)))
    decreases |b.nodes| - b.it, 3
  {
    hide Code, RightCode, EncodeAll, Reserved, Picked, ParseExpr, ParsePair, Need, NeedRight, TargetOk, RightBusy,
         LeafAt, LeafSize, LeafCode, Mov, AluImmCode, AluRRCode, BinCode;
    ghost var p := ParseExpr(b.env, b.nodes, b.it, b.scope);
    if p.Some? { LeafParse(b.env, b.nodes, b.it, b.scope); }
    var leaf, r;
    ok, leaf, r := RightOperand(b, treg, k, j);
    if !ok { return; }
    RightFits(p.value.0, k);
    if leaf {
      b.Emit(AddMem(treg, 0, r));
      Release(b, r, p.value.0, k, j);
      b.Emit(Load(treg, treg, 0));
    } else {
      b.Emit(AddMem(r, 0, treg));
      b.Emit(Load(treg, r, 0));
      Release(b, r, p.value.0, k, j);
    }
  }

  /** T_ADDEQ: the target cell is read after the value is computed. */
  method GenAddAssign(b: Buffer, treg: Reg, addr: bool, ghost k: nat, ghost j: nat)
    returns (ok: bool)
    requires CanStart(b, treg, k, j)
    modifies b`data, b`code, b`fn, b`it
    ensures b.Valid()
    ensures var p := ParsePair(b.env, b.nodes, old(b.it), b.scope);
            && (ok <==> p.Some? && k + Need(AddAssign(p.value.0, p.value.1)) <= 5)
            && (ok ==> b.Produced(old(b.code), old(b.fn),
                                  Code(AddAssign(p.value.0, p.value.1), treg, addr, k, j, old(b.fn.depth)),
                                  p.value.2, k, Need(AddAssign(p.value.0, p.value.1))))
    decreases |b.nodes| - b.it, 4
  {
    hide Code, RightCode, EncodeAll, Reserved, Picked, ParseExpr, ParsePair, Need, NeedRight, TargetOk, RightBusy,
         LeafAt, LeafSize, LeafCode, Mov, AluImmCode, AluRRCode, BinCode;
    ghost var p := ParsePair(b.env, b.nodes, b.it, b.scope);
    PairNeeds(b.env, b.nodes, b.it, b.scope, k);
    if p.Some? { AddAssignShape(p.value.0, p.value.1, treg, addr, k, j, b.fn.depth); }
    hide AddAssignTail;
    ok := CodegenExpr(b, treg, true, k, j);
    if !ok { return; }
    ok := AddAssignRight(b, treg, k, j);
  }

  /** Operator code behind the left value in t. */
  function BinTail(op: BinOp, r: Expr, t: Reg, k: nat, j: nat, d: nat): seq<Instr> {
    if SmallImm(r) then AluImmCode(op, t, r.n)
    else RightCode(r, t, k, j, d)
         + [if IsLeaf(r) then AluRRCode(op, t, Scratch(j)) else AluRRCode(op, Saved(k), t)]
  }

  /** The end of a binary operator: the truth value of a comparison, or the
      result moved to t. */
  function BinEnd(op: BinOp, res: Reg, t: Reg): seq<Instr> {
    if IsCompare(op) then [SetCC(CompareCC(op), t), Movzx8(t, t)] else Mov(t, res)
  }

  method EmitBinEnd(b: Buffer, op: BinOp, treg: Reg, res: Reg)
    requires b.Valid()
    modifies b`data, b`code
    ensures b.Valid() && b.code == old(b.code) + BinEnd(op, res, treg)
  {
    hide EncodeAll;
    if IsCompare(op) {
      b.Emit(SetCC(CompareCC(op), treg));
      b.Emit(Movzx8(treg, treg));
    } else {
      b.EmitMov(treg, res);
    }
  }

  lemma BinShape(op: BinOp, l: Expr, r: Expr, t: Reg, addr: bool, k: nat, j: nat, d: nat)
    ensures Need(Bin(op, l, r)) == MaxInt(Need(l), NeedRight(r))
    ensures Code(Bin(op, l, r), t, addr, k, j, d) == BinCode(Bin(op, l, r), t, k, j, d) + BinEnd(op, BinReg(r, t, k), t)
    ensures BinCode(Bin(op, l, r), t, k, j, d) == Code(l, t, false, k, j, d) + BinTail(op, r, t, k, j, d)
  {
    hide LeafCode, Mov, AluImmCode, AluRRCode;
  }

  /** The right operand and the operation; res holds an arithmetic result. */
  method BinRight(b: Buffer, op: BinOp, treg: Reg, ghost k: nat, ghost j: nat) returns (ok: bool, res: Reg)
    requires CanStart(b, treg, k, j)
    modifies b`data, b`code, b`fn, b`it
    ensures b.Valid()
    ensures var p := ParseExpr(b.env, b.nodes, old(b.it), b.scope);
            && (ok <==> p.Some? && k + NeedRight(p.value.0) <= 5)
            && (ok ==> b.Produced(old(b.code), old(b.fn), BinTail(op, p.value.0, treg, k, j, old(b.fn.depth)),
                                  p.value.1, k, NeedRight(p.value.0)))
    ensures ok ==> res == BinReg(ParseExpr(b.env, b.nodes, old(b.it), b.scope).value.0, treg, k)
    decreases |b.nodes| - b.it, 3
  {
    hide Code, RightCode, EncodeAll, Reserved, Picked, ParseExpr, ParsePair, Need, NeedRight, TargetOk, RightBusy,
         LeafAt, LeafSize, LeafCode, Mov, AluImmCode, AluRRCode, BinCode;
    ghost var p := ParseExpr(b.env, b.nodes, b.it, b.scope);
    if p.Some? { LeafParse(b.env, b.nodes, b.it, b.scope); }
    var imm := SmallImmAt(b.nodes, b.it);
    res := treg;
    if imm.Some? {
      SmallParse(b.env, b.nodes, b.it, b.scope);
      LeafNeed(p.value.0);
      PickedFacts(k, 0, 0);
      b.it := b.it + 2;
      b.GenAluImm(op, treg, imm.value);
      return true, res;
    }
    var leaf, r;
    ok, leaf, r := RightOperand(b, treg, k, j);
    if !ok { return; }
    b.Emit(if leaf then AluRRCode(op, treg, r) else AluRRCode(op, r, treg));
    if !leaf { res := r; }
    RightFits(p.value.0, k);
    Release(b, r, p.value.0, k, j);
  }

  /** `left OP right` into treg; with flagsOnly a comparison only sets the flags. */
  method GenBinary(b: Buffer, op: BinOp, treg: Reg, addr: bool, flagsOnly: bool, ghost k: nat, ghost j: nat)
    returns (ok: bool)
    requires CanStart(b, treg, k, j)
    modifies b`data, b`code, b`fn, b`it
    ensures b.Valid()
    ensures var p := ParsePair(b.env, b.nodes, old(b.it), b.scope);
            && (ok <==> p.Some? && k + Need(Bin(op, p.value.0, p.value.1)) <= 5)
            && (ok ==> b.Produced(old(b.code), old(b.fn),
                                  if flagsOnly then BinCode(Bin(op, p.value.0, p.value.1), treg, k, j, old(b.fn.depth))
                                  else Code(Bin(op, p.value.0, p.value.1), treg, addr, k, j, old(b.fn.depth)),
                                  p.value.2, k, Need(Bin(op, p.value.0, p.value.1))))
    decreases |b.nodes| - b.it, 4
  {
    hide Code, RightCode, EncodeAll, Reserved, Picked, ParseExpr, ParsePair, Need, NeedRight, TargetOk, RightBusy,
         LeafAt, LeafSize, LeafCode, Mov, AluImmCode, AluRRCode, BinCode;
    ghost var p := ParsePair(b.env, b.nodes, b.it, b.scope);
    PairNeeds(b.env, b.nodes, b.it, b.scope, k);
    if p.Some? { BinShape(op, p.value.0, p.value.1, treg, addr, k, j, b.fn.depth); }
    hide BinTail, BinEnd;
    ok := CodegenExpr(b, treg, false, k, j);
    if !ok { return; }
    var res;
    ok, res := BinRight(b, op, treg, k, j);
    if !ok || flagsOnly { return; }
    hide BinReg;
    EmitBinEnd(b, op, treg, res);
  }

  // ---------------------------------------------------------- array literals

  /** Code of the i-th element of an array literal whose slots p points to. */
  function ElemCode(h: Expr, i: nat, p: Reg, k: nat, j: nat, d: nat): seq<Instr> {
    if SmallImm(h) then [StoreImm(p, Disp(i), h.n)]
    else Code(h, Scratch(j), false, k, j + 1, d) + [Store(p, Disp(i), Scratch(j))]
  }

  lemma ElemsShape(es: Exprs, i: nat, p: Reg, k: nat, j: nat, d: nat)
    requires es.Cons?
    ensures ElemsCode(es, i, p, k, j, d) == ElemCode(es.head, i, p, k, j, d) + ElemsCode(es.tail, i + 1, p, k, j, d)
  {
    hide Code;
  }

  method GenElem(b: Buffer, p: Reg, i: nat, ghost k: nat, ghost j: nat) returns (ok: bool)
    requires b.Valid() && b.fn.busy == Reserved(k, j) && j < k <= 5 && b.it <= |b.nodes|
    requires p == Saved(k - 1)
    modifies b`data, b`code, b`fn, b`it
    ensures b.Valid()
    ensures var q := ParseExpr(b.env, b.nodes, old(b.it), b.scope);
            && (ok <==> q.Some? && k + Need(q.value.0) <= 5)
            && (ok ==> b.Produced(old(b.code), old(b.fn), ElemCode(q.value.0, i, p, k, j, old(b.fn.depth)),
                                  q.value.1, k, Need(q.value.0)))
    decreases |b.nodes| - b.it, 2
  {
    hide Code, EncodeAll, Reserved, Picked, ParseExpr, Need, LeafAt, LeafSize;
    ghost var q := ParseExpr(b.env, b.nodes, b.it, b.scope);
    if q.Some? { LeafParse(b.env, b.nodes, b.it, b.scope); }
    var imm := SmallImmAt(b.nodes, b.it);
    if imm.Some? {
      SmallParse(b.env, b.nodes, b.it, b.scope);
      LeafNeed(q.value.0);
      PickedFacts(k, 0, 0);
      b.it := b.it + 2;
      b.Emit(StoreImm(p, Disp(i), imm.value));
      return true;
    }
    PoolsApart();
    ReserveScratch(k, j);
    var e := b.PickScratch(p, k, j);
    ok := CodegenExpr(b, e.value, false, k, j + 1);
    if ok {
      b.Emit(Store(p, Disp(i), e.value));
      b.RegFree(e.value);
    }
  }

  /** i of n elements are done, from the state c0, f0, it0. */
  ghost predicate ElemsDone(b: Buffer, c0: seq<Instr>, f0: FnState, it0: nat, n: nat, i: nat, p: Reg, k: nat, j: nat)
    requires it0 <= |b.nodes|
    reads b
  {
    && i <= n && b.it <= |b.nodes|
    && b.fn == f0.(csUsed := b.fn.csUsed)
    && var all := ParseList(b.env, b.nodes, it0, b.scope, n);
    var rest := ParseList(b.env, b.nodes, b.it, b.scope, n - i);
    && (all.Some? <==> rest.Some?)
    && (all.Some? ==>
      && all.value.1 == rest.value.1
      && b.code + ElemsCode(rest.value.0, i, p, k, j, f0.depth) == c0 + ElemsCode(all.value.0, 0, p, k, j, f0.depth)
      && (k + NeedAll(all.value.0) <= 5 <==> k + NeedAll(rest.value.0) <= 5)
      && b.fn.csUsed + Picked(k, NeedAll(rest.value.0)) == f0.csUsed + Picked(k, NeedAll(all.value.0)))
  }

  lemma ListStep(E: Env, ns: seq<Node>, i: nat, sc: nat, n: nat)
    requires i <= |ns| && n > 0
    ensures var h := ParseExpr(E, ns, i, sc);
            && (ParseList(E, ns, i, sc, n).Some? ==> h.Some?)
            && (h.Some? ==>
                var t := ParseList(E, ns, h.value.1, sc, n - 1);
                ParseList(E, ns, i, sc, n) == if t.Some? then Some((Cons(h.value.0, t.value.0), t.value.1)) else None)
  {
    hide ParseExpr;
  }

  lemma NeedCons(h: Expr, t: Exprs)
    ensures NeedAll(Cons(h, t)) == MaxInt(Need(h), NeedAll(t))
  {
    hide Need;
  }

  lemma ElemsStep(b: Buffer, c0: seq<Instr>, f0: FnState, it0: nat, n: nat, i: nat, p: Reg, k: nat, j: nat,
                  c1: seq<Instr>, cs1: set<Reg>, it1: nat)
    requires b.Valid()
    requires it0 <= |b.nodes| && i < n && it1 <= |b.nodes|
    requires b.fn == f0.(csUsed := b.fn.csUsed)
    requires var q := ParseExpr(b.env, b.nodes, it1, b.scope);
             q.Some? && k + Need(q.value.0) <= 5
             && b.code == c1 + ElemCode(q.value.0, i, p, k, j, f0.depth)
             && b.it == q.value.1 && b.fn.csUsed == cs1 + Picked(k, Need(q.value.0))
    requires var all := ParseList(b.env, b.nodes, it0, b.scope, n);
             var rest := ParseList(b.env, b.nodes, it1, b.scope, n - i);
             && (all.Some? <==> rest.Some?)
             && (all.Some? ==>
               && all.value.1 == rest.value.1
               && c1 + ElemsCode(rest.value.0, i, p, k, j, f0.depth) == c0 + ElemsCode(all.value.0, 0, p, k, j, f0.depth)
               && (k + NeedAll(all.value.0) <= 5 <==> k + NeedAll(rest.value.0) <= 5)
               && cs1 + Picked(k, NeedAll(rest.value.0)) == f0.csUsed + Picked(k, NeedAll(all.value.0)))
    ensures ElemsDone(b, c0, f0, it0, n, i + 1, p, k, j)
  {
    hide Code, ElemCode, ElemsCode, EncodeAll, Picked, ParseExpr, ParseList, Need, NeedAll;
    var q := ParseExpr(b.env, b.nodes, it1, b.scope);
    var rest := ParseList(b.env, b.nodes, it1, b.scope, n - i);
    ListStep(b.env, b.nodes, it1, b.scope, n - i);
    if rest.Some? {
      var es := rest.value.0;
      ElemsShape(es, i, p, k, j, f0.depth);
      NeedCons(es.head, es.tail);
      PickedFacts(k, Need(es.head), NeedAll(es.tail));
    }
  }

  method GenElems(b: Buffer, p: Reg, n: nat, ghost k: nat, ghost j: nat) returns (ok: bool)
    requires b.Valid() && b.fn.busy == Reserved(k, j) && j < k <= 5 && b.it <= |b.nodes|
    requires p == Saved(k - 1)
    modifies b`data, b`code, b`fn, b`it
    ensures b.Valid()
    ensures var q := ParseList(b.env, b.nodes, old(b.it), b.scope, n);
            && (ok <==> q.Some? && k + NeedAll(q.value.0) <= 5)
            && (ok ==> b.Produced(old(b.code), old(b.fn), ElemsCode(q.value.0, 0, p, k, j, old(b.fn.depth)),
                                  q.value.1, k, NeedAll(q.value.0)))
    decreases |b.nodes| - b.it, 3
  {
    hide Code, ElemCode, ElemsCode, EncodeAll, Reserved, Picked, ParseExpr, ParseList, Need, NeedAll;
    ghost var c0, f0, it0 := b.code, b.fn, b.it;
    for i := 0 to n
      invariant b.Valid() && it0 <= b.it
      invariant ElemsDone(b, c0, f0, it0, n, i, p, k, j)
    {
      ghost var c1, cs1, it1 := b.code, b.fn.csUsed, b.it;
      ListStep(b.env, b.nodes, it1, b.scope, n - i);
      if ParseList(b.env, b.nodes, it1, b.scope, n - i).Some? {
        NeedCons(ParseList(b.env, b.nodes, it1, b.scope, n - i).value.0.head, ParseList(b.env, b.nodes, it1, b.scope, n - i).value.0.tail);
      }
      ok := GenElem(b, p, i, k, j);
      if !ok { return; }
      ElemsStep(b, c0, f0, it0, n, i, p, k, j, c1, cs1, it1);
    }
    ok := true;
    ListEnd(b.env, b.nodes, b.it, b.scope);
    ElemsEnd(p, n, k, j, f0.depth);
    PickedFacts(k, 0, 0);
  }

  lemma ListEnd(E: Env, ns: seq<Node>, i: nat, sc: nat)
    requires i <= |ns|
    ensures ParseList(E, ns, i, sc, 0) == Some((Nil, i))
  {}

  lemma ElemsEnd(p: Reg, n: nat, k: nat, j: nat, d: nat)
    ensures ElemsCode(Nil, n, p, k, j, d) == [] && NeedAll(Nil) == 0
  {}

  lemma ArrayShape(data: u64, es: Exprs, t: Reg, addr: bool, k: nat, j: nat, d: nat)
    ensures Need(Arr(data, es)) == 1 + NeedAll(es)
    ensures Code(Arr(data, es), t, addr, k, j, d)
         == [MovImm64(Saved(k), data)] + ElemsCode(es, 0, Saved(k), k + 1, j, d) + Mov(t, Saved(k))
  {
    hide ElemsCode, NeedAll;
  }

  lemma ArrayParse(E: Env, ns: seq<Node>, i: nat, sc: nat)
    requires TokenAt(ns, i) == NArray
    ensures i < |ns|
    ensures ParseExpr(E, ns, i, sc) ==
            match (Payload(ns, i + 1), Payload(ns, i + 3))
            case (Some(d), Some(count)) =>
              if TokenAt(ns, i + 2) != TComma then None
              else
                (match ParseList(E, ns, i + 4, sc, count)
                 case Some((es, i')) => Some((Arr(E.data(d), es), i'))
                 case None => None)
            case _ => None
  {}

  /** The elements are stored one by one through a saved register. */
  method FillArray(b: Buffer, data: u64, n: nat, treg: Reg, ghost addr: bool, ghost k: nat, ghost j: nat) returns (ok: bool)
    requires CanStart(b, treg, k, j)
    modifies b`data, b`code, b`fn, b`it
    ensures b.Valid()
    ensures var q := ParseList(b.env, b.nodes, old(b.it), b.scope, n);
            && (ok <==> q.Some? && k + Need(Arr(data, q.value.0)) <= 5)
            && (ok ==> b.Produced(old(b.code), old(b.fn), Code(Arr(data, q.value.0), treg, addr, k, j, old(b.fn.depth)),
                                  q.value.1, k, Need(Arr(data, q.value.0))))
    decreases |b.nodes| - b.it, 4
  {
    hide Code, ElemsCode, EncodeAll, Reserved, Picked, ParseList, Need, NeedAll, TargetOk, Mov;
    ghost var q := ParseList(b.env, b.nodes, b.it, b.scope, n);
    if q.Some? { ArrayShape(data, q.value.0, treg, addr, k, j, b.fn.depth); }
    PoolFacts(treg, j);
    var p := b.PickSaved(treg, k, j);
    if p.None? { return false; }
    b.Emit(MovImm64(p.value, data));
    ok := GenElems(b, p.value, n, k + 1, j);
    if !ok { return; }
    b.EmitMov(treg, p.value);
    ReserveSaved(k, j);
    b.RegFree(p.value);
    PickedFacts(k, NeedAll(q.value.0), 0);
    Assoc3(old(b.code), [MovImm64(Saved(k), data)],
           ElemsCode(q.value.0, 0, Saved(k), k + 1, j, old(b.fn.depth)), Mov(treg, Saved(k)));
  }

  /** N_ARRAY */
  method GenArray(b: Buffer, treg: Reg, addr: bool, ghost k: nat, ghost j: nat) returns (ok: bool)
    requires CanStart(b, treg, k, j) && TokenAt(b.nodes, b.it) == NArray
    modifies b`data, b`code, b`fn, b`it
    ensures b.Valid()
    ensures var p := ParseExpr(b.env, b.nodes, old(b.it), b.scope);
            && (ok <==> p.Some? && k + Need(p.value.0) <= 5)
            && (ok ==> b.Produced(old(b.code), old(b.fn), Code(p.value.0, treg, addr, k, j, old(b.fn.depth)),
                                  p.value.1, k, Need(p.value.0)))
    decreases |b.nodes| - b.it, 0
  {
    hide Code, EncodeAll, Reserved, Picked, ParseExpr, ParseList, Need, TargetOk;
    var i, E, ns := b.it, b.env, b.nodes;
    ArrayParse(E, ns, i, b.scope);
    var offset, count := Payload(ns, i + 1), Payload(ns, i + 3);
    if offset.None? || count.None? || TokenAt(ns, i + 2) != TComma { return false; }
    b.it := i + 4;
    ok := FillArray(b, E.data(offset.value), count.value, treg, addr, k, j);
  }

  // ------------------------------------------------------------------- calls

  /** The arguments from the i-th on. */
  function From(es: Exprs, i: nat): Exprs
    requires i <= Len(es)
  {
    if i == 0 then es else From(es.tail, i - 1)
  }

  lemma {:induction false} FromStep(es: Exprs, i: nat)
    requires i <= Len(es)
    ensures i < Len(es) ==> From(es, i) == Cons(Nth(es, i), From(es, i + 1))
    ensures i == Len(es) ==> From(es, i) == Nil
  {
    if i > 0 { FromStep(es.tail, i - 1); }
  }

  /** Arguments that were not left for later as leaves. */
  function Complex(leafAt: seq<Option<nat>>, i: nat): nat
    requires i <= |leafAt|
  {
    if i == 0 then 0 else Complex(leafAt, i - 1) + (if leafAt[i - 1].None? then 1 else 0)
  }

  lemma {:induction false} ComplexPrefix(a: seq<Option<nat>>, x: Option<nat>, i: nat)
    requires i <= |a|
    ensures Complex(a + [x], i) == Complex(a, i)
  {
    if i > 0 { ComplexPrefix(a, x, i - 1); }
  }

  /** Every remembered leaf starts with a leaf token. */
  ghost predicate LeafTokens(ns: seq<Node>, leafAt: seq<Option<nat>>) {
    forall n :: 0 <= n < |leafAt| && leafAt[n].Some? ==> LeafSize(ns, leafAt[n].value) > 0
  }

  /** A remembered leaf cannot be resolved. */
  ghost predicate Unresolved(E: Env, ns: seq<Node>, sc: nat, leafAt: seq<Option<nat>>) {
    exists n :: 0 <= n < |leafAt| && leafAt[n].Some? && LeafAt(E, ns, leafAt[n].value, sc).None?
  }

  /** The remembered leaves are the leaves among the first arguments. */
  ghost predicate Split(E: Env, ns: seq<Node>, sc: nat, es: Exprs, leafAt: seq<Option<nat>>) {
    && |leafAt| <= Len(es)
    && forall n :: 0 <= n < |leafAt| ==>
         && (leafAt[n].Some? <==> IsLeaf(Nth(es, n)))
         && (leafAt[n].Some? ==> LeafAt(E, ns, leafAt[n].value, sc) == Some(Nth(es, n)))
  }

  lemma PushShape(h: Expr, t: Exprs, k: nat, j: nat, d: nat)
    ensures PushArgs(Cons(h, t), k, j, d)
         == if IsLeaf(h) then PushArgs(t, k, j, d) else Code(h, RAX, false, k, j, d) + [Push(RAX)] + PushArgs(t, k, j, d + 1)
    ensures PushArgs(Nil, k, j, d) == [] && NeedAll(Nil) == 0
  {
    hide Code;
  }

  /** One argument: a leaf is skipped, anything else is computed and pushed. */
  method PushArg(b: Buffer, ghost k: nat, ghost j: nat) returns (ok: bool, at: Option<nat>)
    requires CanStart(b, RAX, k, j)
    modifies b`data, b`code, b`fn, b`it
    ensures b.Valid()
    ensures ok ==> b.it <= |b.nodes| && b.fn.busy == old(b.fn.busy) && b.fn.depth == old(b.fn.depth) + (if at.None? then 1 else 0)
    ensures ok ==> b.it > old(b.it) && (at.Some? ==> LeafSize(b.nodes, at.value) > 0)
    ensures var q := ParseExpr(b.env, b.nodes, old(b.it), b.scope);
            && (q.Some? ==> (ok <==> k + Need(q.value.0) <= 5))
            && (ok && q.None? ==> at.Some? && LeafAt(b.env, b.nodes, at.value, b.scope).None?)
            && (ok && q.Some? ==>
              && (at.Some? <==> IsLeaf(q.value.0))
              && (at.Some? ==> LeafAt(b.env, b.nodes, at.value, b.scope) == Some(q.value.0))
              && b.it == q.value.1
              && b.code == old(b.code) + (if IsLeaf(q.value.0) then []
                                          else Code(q.value.0, RAX, false, k, j, old(b.fn.depth)) + [Push(RAX)])
              && b.fn.csUsed == old(b.fn.csUsed) + Picked(k, Need(q.value.0)))
    decreases |b.nodes| - b.it, 2
  {
    hide Code, EncodeAll, Reserved, Picked, ParseExpr, Need, LeafAt, LeafSize;
    var i, size := b.it, LeafSize(b.nodes, b.it);
    ParseCases(b.env, b.nodes, i, b.scope);
    ghost var q := ParseExpr(b.env, b.nodes, i, b.scope);
    if q.Some? {
      LeafParse(b.env, b.nodes, i, b.scope);
      LeafNeed(q.value.0);
    }
    if size > 0 {
      PickedFacts(k, 0, 0);
      LeafInside(b.nodes, i);
      b.it := i + size;
      return true, Some(i);
    }
    ok := CodegenExpr(b, RAX, false, k, j);
    at := None;
    if ok {
      b.EmitPush(RAX);
    }
  }

  lemma LeafInside(ns: seq<Node>, i: nat)
    ensures LeafSize(ns, i) > 0 ==> i + LeafSize(ns, i) <= |ns|
  {}

  /** i of n arguments are done, from the state c0, f0, it0. */
  ghost predicate ArgsDone(b: Buffer, c0: seq<Instr>, f0: FnState, it0: nat, n: nat, leafAt: seq<Option<nat>>, k: nat, j: nat)
    requires it0 <= |b.nodes|
    reads b
  {
    && |leafAt| <= n && b.it <= |b.nodes|
    && b.fn == f0.(csUsed := b.fn.csUsed, depth := f0.depth + Complex(leafAt, |leafAt|))
    && LeafTokens(b.nodes, leafAt)
    && var all := ParseList(b.env, b.nodes, it0, b.scope, n);
    var rest := ParseList(b.env, b.nodes, b.it, b.scope, n - |leafAt|);
    && (all.None? ==> rest.None? || Unresolved(b.env, b.nodes, b.scope, leafAt))
    && (all.Some? ==>
      && Split(b.env, b.nodes, b.scope, all.value.0, leafAt)
      && rest == Some((From(all.value.0, |leafAt|), all.value.1))
      && b.code + PushArgs(rest.value.0, k, j, b.fn.depth) == c0 + PushArgs(all.value.0, k, j, f0.depth)
      && (k + NeedAll(all.value.0) <= 5 <==> k + NeedAll(rest.value.0) <= 5)
      && b.fn.csUsed + Picked(k, NeedAll(rest.value.0)) == f0.csUsed + Picked(k, NeedAll(all.value.0)))
  }

  lemma UnresolvedGrows(E: Env, ns: seq<Node>, sc: nat, leafAt: seq<Option<nat>>, at: Option<nat>)
    ensures Unresolved(E, ns, sc, leafAt) ==> Unresolved(E, ns, sc, leafAt + [at])
    ensures at.Some? && LeafAt(E, ns, at.value, sc).None? ==> Unresolved(E, ns, sc, leafAt + [at])
    ensures LeafTokens(ns, leafAt) && (at.Some? ==> LeafSize(ns, at.value) > 0) ==> LeafTokens(ns, leafAt + [at])
    ensures Complex(leafAt + [at], |leafAt| + 1) == Complex(leafAt, |leafAt|) + (if at.None? then 1 else 0)
  {
    hide LeafAt, LeafSize;
    var next := leafAt + [at];
    if Unresolved(E, ns, sc, leafAt) {
      var n :| 0 <= n < |leafAt| && leafAt[n].Some? && LeafAt(E, ns, leafAt[n].value, sc).None?;
      assert next[n] == leafAt[n];
    }
    assert next[|leafAt|] == at;
    ComplexPrefix(leafAt, at, |leafAt|);
  }

  lemma SplitGrows(E: Env, ns: seq<Node>, sc: nat, es: Exprs, leafAt: seq<Option<nat>>, at: Option<nat>)
    requires Split(E, ns, sc, es, leafAt) && |leafAt| < Len(es)
    requires at.Some? <==> IsLeaf(Nth(es, |leafAt|))
    requires at.Some? ==> LeafAt(E, ns, at.value, sc) == Some(Nth(es, |leafAt|))
    ensures Split(E, ns, sc, es, leafAt + [at])
  {
    hide LeafAt, Nth;
  }

  /** What PushArg did, as a step of the loop. */
  lemma ArgsStep(b: Buffer, c0: seq<Instr>, f0: FnState, it0: nat, n: nat, leafAt: seq<Option<nat>>, k: nat, j: nat,
                 es: Exprs, c1: seq<Instr>, d1: nat, cs1: set<Reg>, at: Option<nat>)
    requires b.it <= |b.nodes| && it0 <= |b.nodes| && |leafAt| < Len(es)
    requires ParseList(b.env, b.nodes, it0, b.scope, n).Some? && ParseList(b.env, b.nodes, it0, b.scope, n).value.0 == es
    requires var i := |leafAt|; var h := Nth(es, i);
             && ParseList(b.env, b.nodes, b.it, b.scope, n - i - 1)
                == Some((From(es, i + 1), ParseList(b.env, b.nodes, it0, b.scope, n).value.1))
             && b.code == c1 + (if IsLeaf(h) then [] else Code(h, RAX, false, k, j, d1) + [Push(RAX)])
             && b.fn == f0.(csUsed := cs1 + Picked(k, Need(h)), depth := d1 + if IsLeaf(h) then 0 else 1)
             && d1 == f0.depth + Complex(leafAt, i)
             && c1 + PushArgs(From(es, i), k, j, d1) == c0 + PushArgs(es, k, j, f0.depth)
             && k + Need(h) <= 5
             && (k + NeedAll(es) <= 5 <==> k + NeedAll(From(es, i)) <= 5)
             && cs1 + Picked(k, NeedAll(From(es, i))) == f0.csUsed + Picked(k, NeedAll(es))
             && (at.Some? <==> IsLeaf(h))
             && (at.Some? ==> LeafSize(b.nodes, at.value) > 0)
             && (at.Some? ==> LeafAt(b.env, b.nodes, at.value, b.scope) == Some(h))
    requires LeafTokens(b.nodes, leafAt) && Split(b.env, b.nodes, b.scope, es, leafAt)
    ensures ArgsDone(b, c0, f0, it0, n, leafAt + [at], k, j)
  {
    hide Code, PushArgs, EncodeAll, Reserved, Picked, ParseExpr, ParseList, Need, NeedAll, LeafAt, LeafSize, Complex,
         LeafTokens, Unresolved, Split, Nth, From, IsLeaf;
    var i := |leafAt|;
    FromStep(es, i);
    NeedCons(Nth(es, i), From(es, i + 1));
    UnresolvedGrows(b.env, b.nodes, b.scope, leafAt, at);
    SplitGrows(b.env, b.nodes, b.scope, es, leafAt, at);
    PushShape(Nth(es, i), From(es, i + 1), k, j, d1);
    PickedFacts(k, Need(Nth(es, i)), NeedAll(From(es, i + 1)));
  }

  method PushAll(b: Buffer, n: nat, ghost k: nat, ghost j: nat) returns (ok: bool, leafAt: seq<Option<nat>>)
    requires CanStart(b, RAX, k, j)
    modifies b`data, b`code, b`fn, b`it
    ensures b.Valid()
    ensures var q := ParseList(b.env, b.nodes, old(b.it), b.scope, n);
            && (q.Some? ==> (ok <==> k + NeedAll(q.value.0) <= 5))
    ensures ok ==> |leafAt| == n && ArgsDone(b, old(b.code), old(b.fn), old(b.it), n, leafAt, k, j)
    decreases |b.nodes| - b.it, 3
  {
    hide Code, PushArgs, EncodeAll, Reserved, Picked, ParseExpr, ParseList, Need, NeedAll, LeafAt, LeafSize, Complex,
         LeafTokens, Unresolved, Split, Nth, From;
    ghost var c0, f0, it0 := b.code, b.fn, b.it;
    leafAt := [];
    ghost var all := ParseList(b.env, b.nodes, it0, b.scope, n);
    ArgsStart(b, n, k, j);
    for i := 0 to n
      invariant b.Valid() && it0 <= b.it && |leafAt| == i
      invariant ArgsDone(b, c0, f0, it0, n, leafAt, k, j)
    {
      ghost var c1, f1 := b.code, b.fn;
      ListStep(b.env, b.nodes, b.it, b.scope, n - i);
      if all.Some? {
        FromStep(all.value.0, i);
        NeedCons(Nth(all.value.0, i), From(all.value.0, i + 1));
      }
      var at;
      ok, at := PushArg(b, k, j);
      if !ok { return; }
      if all.Some? {
        ArgsStep(b, c0, f0, it0, n, leafAt, k, j, all.value.0, c1, f1.depth, f1.csUsed, at);
      } else {
        UnresolvedGrows(b.env, b.nodes, b.scope, leafAt, at);
      }
      leafAt := leafAt + [at];
    }
    ok := true;
    if all.Some? {
      FromStep(all.value.0, n);
      PushShape(Num(0), Nil, k, j, 0);
    }
  }

  lemma ArgsStart(b: Buffer, n: nat, k: nat, j: nat)
    requires b.it <= |b.nodes|
    ensures ArgsDone(b, b.code, b.fn, b.it, n, [], k, j)
  {
    hide Code, PushArgs, Picked, ParseList, Need, NeedAll;
  }

  lemma PopShape(es: Exprs, i: nat)
    requires i < Len(es)
    ensures PopArgs(From(es, i), i)
         == PopArgs(From(es, i + 1), i + 1) + (if IsLeaf(Nth(es, i)) then [] else [Pop(ArgReg(i))])
    ensures LeafArgs(From(es, i), i)
         == (if IsLeaf(Nth(es, i)) then LeafCode(Nth(es, i), ArgReg(i), false) else []) + LeafArgs(From(es, i + 1), i + 1)
  {
    FromStep(es, i);
    hide LeafCode;
  }

  lemma NothingLeft(es: Exprs)
    ensures PopArgs(From(es, Len(es)), Len(es)) == [] && LeafArgs(From(es, Len(es)), Len(es)) == []
  {
    FromStep(es, Len(es));
  }

  /** The pushed arguments come back, the last one first. */
  method PopAll(b: Buffer, leafAt: seq<Option<nat>>, ghost es: Option<Exprs>)
    requires b.Valid() && |leafAt| <= 6 && b.fn.depth >= Complex(leafAt, |leafAt|)
    requires es.Some? ==> Len(es.value) == |leafAt| && Split(b.env, b.nodes, b.scope, es.value, leafAt)
    modifies b`data, b`code, b`fn
    ensures b.Valid() && b.fn == old(b.fn).(depth := old(b.fn.depth) - Complex(leafAt, |leafAt|))
    ensures es.Some? ==> b.code == old(b.code) + PopArgs(es.value, 0)
  {
    hide EncodeAll, PopArgs, Nth, LeafAt, From, Len;
    var i: nat := |leafAt|;
    if es.Some? { NothingLeft(es.value); }
    while i > 0
      invariant i <= |leafAt| && b.Valid()
      invariant b.fn == old(b.fn).(depth := b.fn.depth)
      invariant b.fn.depth + Complex(leafAt, |leafAt|) == old(b.fn.depth) + Complex(leafAt, i)
      invariant es.Some? ==> b.code == old(b.code) + PopArgs(From(es.value, i), i)
    {
      i := i - 1;
      if es.Some? { PopShape(es.value, i); }
      if leafAt[i].None? { b.EmitPop(ArgReg(i)); }
    }
    if es.Some? { FromZero(es.value); }
  }

  lemma FromZero(es: Exprs)
    ensures From(es, 0) == es
  {}

  /** The remembered leaves, straight into their registers. */
  method LoadLeaves(b: Buffer, leafAt: seq<Option<nat>>, ghost es: Option<Exprs>) returns (ok: bool)
    requires b.Valid() && |leafAt| <= 6 && LeafTokens(b.nodes, leafAt)
    requires es.Some? ==> Len(es.value) == |leafAt| && Split(b.env, b.nodes, b.scope, es.value, leafAt)
    modifies b`data, b`code
    ensures b.Valid()
    ensures ok <==> !Unresolved(b.env, b.nodes, b.scope, leafAt)
    ensures ok && es.Some? ==> b.code == old(b.code) + LeafArgs(es.value, 0)
  {
    hide EncodeAll, LeafArgs, LeafCode, Nth, LeafAt, LeafSize, From, Len;
    if es.Some? { FromZero(es.value); }
    for i := 0 to |leafAt|
      invariant b.Valid()
      invariant forall n :: 0 <= n < i && leafAt[n].Some? ==> LeafAt(b.env, b.nodes, leafAt[n].value, b.scope).Some?
      invariant es.Some? ==> b.code + LeafArgs(From(es.value, i), i) == old(b.code) + LeafArgs(es.value, 0)
    {
      if es.Some? { PopShape(es.value, i); }
      if leafAt[i].Some? {
        ok := b.GenLeaf(ArgReg(i), false, leafAt[i].value);
        if !ok { return; }
      }
    }
    ok := true;
    if es.Some? { NothingLeft(es.value); }
  }

  /** Where all arguments end up in their registers. */
  function ArgsCode(es: Exprs, k: nat, j: nat, d: nat): seq<Instr> {
    PushArgs(es, k, j, d) + PopArgs(es, 0) + LeafArgs(es, 0)
  }

  lemma SplitResolved(E: Env, ns: seq<Node>, sc: nat, es: Exprs, leafAt: seq<Option<nat>>)
    requires Split(E, ns, sc, es, leafAt)
    ensures !Unresolved(E, ns, sc, leafAt)
  {}

  /** All arguments: complex ones first, in order, then the leaves. */
  method GenArgs(b: Buffer, n: nat, ghost k: nat, ghost j: nat) returns (ok: bool)
    requires CanStart(b, RAX, k, j) && n <= 6
    modifies b`data, b`code, b`fn, b`it
    ensures b.Valid()
    ensures var q := ParseList(b.env, b.nodes, old(b.it), b.scope, n);
            && (ok <==> q.Some? && k + NeedAll(q.value.0) <= 5)
            && (ok ==> b.Produced(old(b.code), old(b.fn), ArgsCode(q.value.0, k, j, old(b.fn.depth)),
                                  q.value.1, k, NeedAll(q.value.0)))
    decreases |b.nodes| - b.it, 4
  {
    hide Code, PushArgs, PopArgs, LeafArgs, EncodeAll, Reserved, Picked, ParseExpr, ParseList, Need, NeedAll, LeafAt, LeafSize,
         Complex, LeafTokens, Unresolved, Split, Nth, From;
    ghost var q := ParseList(b.env, b.nodes, b.it, b.scope, n);
    var leafAt;
    ok, leafAt := PushAll(b, n, k, j);
    if !ok { return; }
    ghost var es := if q.Some? then Some(q.value.0) else None;
    if q.Some? {
      FromStep(q.value.0, n);
      PushShape(Num(0), Nil, k, j, b.fn.depth);
      PickedFacts(k, 0, 0);
      SplitResolved(b.env, b.nodes, b.scope, q.value.0, leafAt);
    }
    ListEnd(b.env, b.nodes, b.it, b.scope);
    PopAll(b, leafAt, es);
    ok := LoadLeaves(b, leafAt, es);
    if ok {
      Assoc3(old(b.code), PushArgs(q.value.0, k, j, old(b.fn.depth)), PopArgs(q.value.0, 0), LeafArgs(q.value.0, 0));
    }
  }

  /** Code of a callee before the arguments: nothing for a leaf. */
  function CalleeCode(c: Expr, k: nat, j: nat, d: nat): seq<Instr> {
    if IsLeaf(c) then [] else Code(c, RAX, false, k, j, d) + [Push(RAX)]
  }

  /** And after them. */
  function CalleeLoad(c: Expr): seq<Instr> {
    if IsLeaf(c) then LeafCode(c, R11, false) else [Pop(R11)]
  }

  lemma CallShape(c: Expr, es: Exprs, t: Reg, addr: bool, k: nat, j: nat, d: nat)
    ensures Code(Call(c, es), t, addr, k, j, d)
         == CalleeCode(c, k, j, d) + ArgsCode(es, k, j, if IsLeaf(c) then d else d + 1)
            + CalleeLoad(c) + CallCode(d) + Mov(t, RAX)
  {
    hide LeafCode, Mov, CallCode, PushArgs, PopArgs, LeafArgs, NeedAll;
  }

  lemma CallNeed(c: Expr, es: Exprs)
    ensures Need(Call(c, es)) == MaxInt(Need(c), NeedAll(es))
  {
    hide NeedAll;
  }

  lemma CallParse(E: Env, ns: seq<Node>, i: nat, sc: nat)
    requires TokenAt(ns, i) == TCall
    ensures i < |ns|
    ensures ParseExpr(E, ns, i, sc) ==
            match ParseExpr(E, ns, i + 1, sc)
            case None => None
            case Some((c, i1)) =>
              (match ParseArgs(E, ns, i1, sc)
               case Some((es, i')) => Some((Call(c, es), i'))
               case None => None)
  {}

  /** The comma node in front of the arguments, then the arguments. */
  method GenArgList(b: Buffer, ghost k: nat, ghost j: nat) returns (ok: bool)
    requires CanStart(b, RAX, k, j)
    modifies b`data, b`code, b`fn, b`it
    ensures b.Valid()
    ensures var q := ParseArgs(b.env, b.nodes, old(b.it), b.scope);
            && (ok <==> q.Some? && k + NeedAll(q.value.0) <= 5)
            && (ok ==> b.Produced(old(b.code), old(b.fn), ArgsCode(q.value.0, k, j, old(b.fn.depth)),
                                  q.value.1, k, NeedAll(q.value.0)))
    decreases |b.nodes| - b.it, 5
  {
    hide ArgsCode, EncodeAll, Reserved, Picked, ParseExpr, ParseList, Need, NeedAll;
    var count := Payload(b.nodes, b.it + 1);
    if count.None? || TokenAt(b.nodes, b.it) != TComma || count.value > 6 { return false; }
    b.it := b.it + 2;
    ok := GenArgs(b, count.value, k, j);
  }

  /** The callee's address into R11. */
  method LoadCallee(b: Buffer, at: Option<nat>, ghost c: Option<Expr>) returns (ok: bool)
    requires b.Valid() && (at.None? ==> b.fn.depth > 0)
    requires at.Some? ==> LeafSize(b.nodes, at.value) > 0 && LeafAt(b.env, b.nodes, at.value, b.scope) == c
    requires c.Some? ==> (at.Some? <==> IsLeaf(c.value))
    modifies b`data, b`code, b`fn
    ensures b.Valid() && b.fn == old(b.fn).(depth := old(b.fn.depth) - if at.None? then 1 else 0)
    ensures ok <==> at.None? || c.Some?
    ensures ok && c.Some? ==> b.code == old(b.code) + CalleeLoad(c.value)
  {
    hide EncodeAll, LeafCode, LeafAt, LeafSize;
    if at.Some? {
      ok := b.GenLeaf(R11, false, at.value);
    } else {
      b.EmitPop(R11);
      ok := true;
    }
  }

  lemma Assoc5(c0: seq<Instr>, a: seq<Instr>, b: seq<Instr>, c: seq<Instr>, d: seq<Instr>, e: seq<Instr>)
    ensures c0 + a + b + c + d + e == c0 + (a + b + c + d + e)
  {}

  /** T_CALL: a complex callee and complex arguments go over the stack. */
  method GenCall(b: Buffer, treg: Reg, addr: bool, ghost k: nat, ghost j: nat) returns (ok: bool)
    requires CanStart(b, treg, k, j) && TokenAt(b.nodes, b.it) == TCall
    modifies b`data, b`code, b`fn, b`it
    ensures b.Valid()
    ensures var p := ParseExpr(b.env, b.nodes, old(b.it), b.scope);
            && (ok <==> p.Some? && k + Need(p.value.0) <= 5)
            && (ok ==> b.Produced(old(b.code), old(b.fn), Code(p.value.0, treg, addr, k, j, old(b.fn.depth)),
                                  p.value.1, k, Need(p.value.0)))
    decreases |b.nodes| - b.it, 0
  {
    hide Code, ArgsCode, EncodeAll, Reserved, Picked, ParseExpr, ParseArgs, Need, NeedAll, LeafAt, LeafSize, TargetOk, Mov,
         CallCode, CalleeLoad, LeafCode;
    CallParse(b.env, b.nodes, b.it, b.scope);
    ghost var p := ParseExpr(b.env, b.nodes, b.it, b.scope);
    if p.Some? { CallNeed(p.value.0.callee, p.value.0.args); }
    assert TargetOk(RAX, j) by { RaxOk(j); }
    ghost var d := b.fn.depth;
    b.it := b.it + 1;
    ghost var q := ParseExpr(b.env, b.nodes, b.it, b.scope);
    ghost var c := if q.Some? then Some(q.value.0) else None;
    var at;
    ok, at := PushArg(b, k, j);
    if !ok { return; }
    ghost var args := ParseArgs(b.env, b.nodes, b.it, b.scope);
    ok := GenArgList(b, k, j);
    if !ok { return; }
    ok := LoadCallee(b, at, c);
    if !ok { return; }
    b.EmitCall(d);
    b.EmitMov(treg, RAX);
    ghost var es := args.value.0;
    CallShape(c.value, es, treg, addr, k, j, d);
    PickedFacts(k, Need(c.value), NeedAll(es));
    Assoc5(old(b.code), CalleeCode(c.value, k, j, d), ArgsCode(es, k, j, if IsLeaf(c.value) then d else d + 1),
           CalleeLoad(c.value), CallCode(d), Mov(treg, RAX));
  }

  lemma RaxOk(j: nat)
    ensures TargetOk(RAX, j)
  {}
}
