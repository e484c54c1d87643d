/** Deleting the branch of a trailing `return` moves the epilogue five bytes
    forward. Every branch of a body still lands on an instruction exactly when
    that `return` is not inside an `if`. */
module TailDeletion {
  import opened Words
  import opened Isa
  import opened IsaRoundTrip
  import opened Machine
  import opened Source
  import opened Select
  import opened ExprBasics
  import opened ExprProof
  import opened Layout
  import opened StmtProof
  import opened FuncProof
  import opened FuncTheorem
  import opened Plain
  import opened Ranges

  predicate IsBranch(i: Instr) { i.Jmp? || i.Jcc? }

  /** Where the n-th instruction branches to, from the start of the code. */
  function Target(code: seq<Instr>, n: nat): int
    requires n < |code| && IsBranch(code[n])
  {
    Size(code[..n + 1]) + code[n].rel
  }

  /** x is where an instruction starts, or the end of the code. */
  ghost predicate Boundary(code: seq<Instr>, x: int) {
    exists n :: 0 <= n <= |code| && Size(code[..n]) == x
  }

  ghost predicate BranchesLand(code: seq<Instr>) {
    forall n :: 0 <= n < |code| && IsBranch(code[n]) ==> Boundary(code, Target(code, n))
  }

  /** Inside the code, or at x. */
  ghost predicate BranchesTo(code: seq<Instr>, x: int) {
    forall n :: 0 <= n < |code| && IsBranch(code[n]) ==> Boundary(code, Target(code, n)) || Target(code, n) == x
  }

  // ------------------------------------------------------------------ pieces

  lemma SizeTake(a: seq<Instr>, b: seq<Instr>, n: nat)
    requires n <= |a| + |b|
    ensures n <= |a| ==> (a + b)[..n] == a[..n]
    ensures n >= |a| ==> Size((a + b)[..n]) == Size(a) + Size(b[..n - |a|])
  {
    if n >= |a| {
      assert (a + b)[..n] == a + b[..n - |a|];
      SizeConcat(a, b[..n - |a|]);
    }
  }

  lemma BoundaryLeft(a: seq<Instr>, b: seq<Instr>, x: int)
    requires Boundary(a, x)
    ensures Boundary(a + b, x)
  {
    var n :| 0 <= n <= |a| && Size(a[..n]) == x;
    SizeTake(a, b, n);
    assert Size((a + b)[..n]) == x;
  }

  lemma BoundaryRight(a: seq<Instr>, b: seq<Instr>, x: int)
    requires Boundary(b, x)
    ensures Boundary(a + b, Size(a) + x)
  {
    var n :| 0 <= n <= |b| && Size(b[..n]) == x;
    SizeTake(a, b, |a| + n);
    assert Size((a + b)[..|a| + n]) == Size(a) + x;
  }

  lemma BoundaryEnds(code: seq<Instr>)
    ensures Boundary(code, 0) && Boundary(code, Size(code))
  {
    assert code[..0] == [];
    EmptySize();
    assert Size(code[..0]) == 0;
    assert code[..|code|] == code;
    assert Size(code[..|code|]) == Size(code);
  }

  lemma TargetLeft(a: seq<Instr>, b: seq<Instr>, n: nat)
    requires n < |a| && IsBranch(a[n])
    ensures Target(a + b, n) == Target(a, n)
  {
    SizeTake(a, b, n + 1);
  }

  lemma TargetRight(a: seq<Instr>, b: seq<Instr>, n: nat)
    requires n < |b| && IsBranch(b[n])
    ensures Target(a + b, |a| + n) == Size(a) + Target(b, n)
  {
    hide Size;
    SizeTake(a, b, |a| + n + 1);
  }

  /** Branches of two pieces, each to itself or to the same outside place. */
  lemma BranchesJoin(a: seq<Instr>, b: seq<Instr>, x: int)
    requires BranchesTo(b, x - Size(a))
    requires forall n :: 0 <= n < |a| && IsBranch(a[n]) ==>
               Boundary(a, Target(a, n)) || Boundary(a + b, Target(a, n)) || Target(a, n) == x
    ensures BranchesTo(a + b, x)
  {
    hide Size;
    forall n | 0 <= n < |a + b| && IsBranch((a + b)[n])
      ensures Boundary(a + b, Target(a + b, n)) || Target(a + b, n) == x
    {
      if n < |a| {
        TargetLeft(a, b, n);
        if Boundary(a, Target(a, n)) { BoundaryLeft(a, b, Target(a, n)); }
      } else {
        TargetRight(a, b, n - |a|);
        if Boundary(b, Target(b, n - |a|)) { BoundaryRight(a, b, Target(b, n - |a|)); }
      }
    }
  }

  lemma OneTarget(i: Instr)
    requires IsBranch(i)
    ensures Target([i], 0) == Size([i]) + i.rel
  {
    assert [i][..1] == [i];
  }

  // --------------------------------------------- branches of undeleted bodies

  /** Every branch of a statement stays inside it or goes to the exit. */
  lemma {:induction false} StmtBranches(st: Stmt, exit: int)
    ensures BranchesTo(StmtCode(st, Some(exit)), StmtSize(st) + exit)
    decreases st, 1
  {
    hide Size, Code, CondCode, Target, Boundary;
    match st
    case Skip =>
    case Seq(a, b) =>
      var ca, cb := StmtCode(a, Some(exit + StmtSize(b))), StmtCode(b, Some(exit));
      StmtBranches(a, exit + StmtSize(b));
      StmtBranches(b, exit);
      StmtSizeOk(a, Some(exit + StmtSize(b)));
      BranchesJoin(ca, cb, StmtSize(st) + exit);
    case ExprS(e) => CodePlain(e, RAX, true, 0, 0, 0);
    case If(_, _) => IfBranches(st, exit);
    case While(_, _) => WhileBranches(st, exit);
    case Return(e) =>
      var ce := Code(e, RAX, false, 0, 0, 0);
      CodePlain(e, RAX, false, 0, 0, 0);
      JumpSizes(0, exit);
      OneTarget(Jmp(exit));
      BranchesJoin(ce, [Jmp(exit)], StmtSize(st) + exit);
  }

  lemma IfBranches(st: Stmt, exit: int)
    requires st.If?
    ensures BranchesTo(StmtCode(st, Some(exit)), StmtSize(st) + exit)
    decreases st, 0
  {
    hide Size, Code, CondCode, Target, Boundary;
    var If(c, b) := st;
    var j, cb := Jcc(SkipCC(c), StmtSize(b)), StmtCode(b, Some(exit));
    StmtBranches(b, exit);
    StmtSizeOk(b, Some(exit));
    StmtSizeOk(st, Some(exit));
    JumpSizes(SkipCC(c), StmtSize(b));
    SizeConcat(CondCode(c), [j]);
    CondTarget(c, j);
    BoundaryEnds(StmtCode(st, Some(exit)));
    BranchesJoin(CondCode(c) + [j], cb, StmtSize(st) + exit);
  }

  /** The only branch of a condition is its last instruction. */
  lemma CondTarget(c: Expr, j: Instr)
    requires j.Jcc?
    ensures var code := CondCode(c) + [j];
            forall n :: 0 <= n < |code| && IsBranch(code[n]) ==>
              n == |code| - 1 && Target(code, n) == Size(CondCode(c)) + JCC_SIZE + j.rel
  {
    hide Size;
    CondPlain(c);
    assert forall n :: 0 <= n < |CondCode(c)| ==> !IsBranch(CondCode(c)[n]);
    var code := CondCode(c) + [j];
    assert code[..|code|] == code;
    JumpSizes(j.cc, j.rel);
    SizeConcat(CondCode(c), [j]);
    forall n | 0 <= n < |code| && IsBranch(code[n])
      ensures n == |code| - 1 && Target(code, n) == Size(CondCode(c)) + JCC_SIZE + j.rel
    {}
  }

  lemma WhileBranches(st: Stmt, exit: int)
    requires st.While?
    ensures BranchesTo(StmtCode(st, Some(exit)), StmtSize(st) + exit)
    decreases st, 0
  {
    hide Size, Code, CondCode, Target, Boundary, BranchesTo;
    var While(c, b) := st;
    var x := exit + JMP_SIZE;
    var j, cb, back := Jcc(SkipCC(c), StmtSize(b) + JMP_SIZE), StmtCode(b, Some(x)), Jmp(Back(StmtSize(st)));
    StmtBranches(b, x);
    StmtSizeOk(b, Some(x));
    StmtSizeOk(st, Some(exit));
    JumpSizes(SkipCC(c), StmtSize(b) + JMP_SIZE);
    JumpSizes(0, Back(StmtSize(st)));
    SizeConcat(CondCode(c), [j]);
    SizeConcat(CondCode(c) + [j], cb);
    var head := CondCode(c) + [j] + cb;
    var code := StmtCode(st, Some(exit));
    assert code == head + [back];
    BoundaryEnds(code);
    OneTarget(back);
    CondTarget(c, j);
    WhileHead(st, exit);
    WhileJoin(head, back, StmtSize(st), exit);
  }

  /** The branches of a loop before its last one go to its end, inside the body
      or to the exit. */
  lemma WhileHead(st: Stmt, exit: int)
    requires st.While?
    requires BranchesTo(StmtCode(st.body, Some(exit + JMP_SIZE)), StmtSize(st.body) + exit + JMP_SIZE)
    ensures var head := CondCode(st.cond) + [Jcc(SkipCC(st.cond), StmtSize(st.body) + JMP_SIZE)]
                        + StmtCode(st.body, Some(exit + JMP_SIZE));
            forall n :: 0 <= n < |head| && IsBranch(head[n]) ==>
              Boundary(head, Target(head, n)) || Target(head, n) in {StmtSize(st), StmtSize(st) + exit}
  {
    hide Size, CondCode, Boundary, StmtCode;
    var c, b := st.cond, st.body;
    var pre := CondCode(c) + [Jcc(SkipCC(c), StmtSize(b) + JMP_SIZE)];
    var cb := StmtCode(b, Some(exit + JMP_SIZE));
    JumpSizes(SkipCC(c), StmtSize(b) + JMP_SIZE);
    SizeConcat(CondCode(c), [Jcc(SkipCC(c), StmtSize(b) + JMP_SIZE)]);
    CondTarget(c, Jcc(SkipCC(c), StmtSize(b) + JMP_SIZE));
    hide Target;
    forall n | 0 <= n < |pre + cb| && IsBranch((pre + cb)[n])
      ensures Boundary(pre + cb, Target(pre + cb, n)) || Target(pre + cb, n) in {StmtSize(st), StmtSize(st) + exit}
    {
      if n < |pre| {
        TargetLeft(pre, cb, n);
      } else {
        TargetRight(pre, cb, n - |pre|);
        if Boundary(cb, Target(cb, n - |pre|)) { BoundaryRight(pre, cb, Target(cb, n - |pre|)); }
      }
    }
  }

  lemma WhileJoin(head: seq<Instr>, back: Instr, size: nat, exit: int)
    requires back.Jmp? && back.rel == Back(size) && Size(head) + JMP_SIZE == size && Size(head + [back]) == size
    requires Target([back], 0) == JMP_SIZE + back.rel
    requires forall n :: 0 <= n < |head| && IsBranch(head[n]) ==>
               Boundary(head, Target(head, n)) || Target(head, n) in {size, size + exit}
    requires Boundary(head + [back], 0) && Boundary(head + [back], size)
    ensures BranchesTo(head + [back], size + exit)
  {
    hide Size, Target, Boundary;
    forall n | 0 <= n < |head + [back]| && IsBranch((head + [back])[n])
      ensures Boundary(head + [back], Target(head + [back], n)) || Target(head + [back], n) == size + exit
    {
      if n < |head| {
        TargetLeft(head, [back], n);
        if Boundary(head, Target(head, n)) { BoundaryLeft(head, [back], Target(head, n)); }
      } else {
        TargetRight(head, [back], 0);
      }
    }
  }

  // ---------------------------------------------------- what the deletion does

  /** Some branch before the last instruction goes to the end of the code. */
  ghost predicate HitsEnd(code: seq<Instr>, size: nat) {
    exists n :: 0 <= n < |code| - 1 && IsBranch(code[n]) && Target(code, n) == size
  }

  ghost predicate NoneTo(code: seq<Instr>, x: int) {
    forall n :: 0 <= n < |code| && IsBranch(code[n]) ==> Target(code, n) != x
  }

  lemma PrefixSize(code: seq<Instr>, n: nat)
    requires n <= |code|
    ensures Size(code[..n]) <= Size(code)
  {
    assert code == code[..n] + code[n..];
    SizeConcat(code[..n], code[n..]);
  }

  lemma HitsEndLeft(a: Stmt, b: Stmt)
    requires TailReturn(b)
    ensures NoneTo(StmtCode(a, Some(StmtSize(b) - JMP_SIZE)), StmtSize(a) + StmtSize(b))
  {
    hide Size, StmtCode;
    var x := StmtSize(b) - JMP_SIZE;
    var ca := StmtCode(a, Some(x));
    TailShape(b, -JMP_SIZE);
    StmtBranches(a, x);
    StmtSizeOk(a, Some(x));
    forall n | 0 <= n < |ca| && IsBranch(ca[n])
      ensures Target(ca, n) != StmtSize(a) + StmtSize(b)
    {
      if Boundary(ca, Target(ca, n)) {
        var m :| 0 <= m <= |ca| && Size(ca[..m]) == Target(ca, n);
        PrefixSize(ca, m);
      }
    }
  }

  lemma HitsEndRight(a: seq<Instr>, b: seq<Instr>, size: nat)
    requires |b| > 0
    requires NoneTo(a, Size(a) + size)
    ensures HitsEnd(a + b, Size(a) + size) <==> HitsEnd(b, size)
  {
    hide Size, Target;
    if n :| 0 <= n < |a + b| - 1 && IsBranch((a + b)[n]) && Target(a + b, n) == Size(a) + size {
      if n < |a| {
        TargetLeft(a, b, n);
      } else {
        TargetRight(a, b, n - |a|);
      }
      assert HitsEnd(b, size);
    }
    if n :| 0 <= n < |b| - 1 && IsBranch(b[n]) && Target(b, n) == size {
      TargetRight(a, b, n);
      assert (a + b)[|a| + n] == b[n];
      assert HitsEnd(a + b, Size(a) + size);
    }
  }

  /** A branch other than the return's own goes to the undeleted end exactly
      when the trailing return is inside an `if`. */
  lemma {:induction false} EndHit(st: Stmt)
    requires TailReturn(st)
    ensures HitsEnd(StmtCode(st, Some(-JMP_SIZE)), StmtSize(st)) <==> TailIf(st)
  {
    hide Size, Code, CondCode, Target, HitsEnd;
    match st
    case Return(e) =>
      CodePlain(e, RAX, false, 0, 0, 0);
      NoHit(Code(e, RAX, false, 0, 0, 0), Jmp(-JMP_SIZE), StmtSize(st));
    case If(c, b) =>
      TailShape(b, -JMP_SIZE);
      IfHit(st);
    case Seq(a, b) =>
      var cb := StmtCode(b, Some(-JMP_SIZE));
      if NoCode(b) {
        EmptyCode(b, Some(-JMP_SIZE));
        assert StmtCode(st, Some(-JMP_SIZE)) == StmtCode(a, Some(-JMP_SIZE));
        EndHit(a);
      } else {
        EndHit(b);
        TailShape(b, -JMP_SIZE);
        HitsEndLeft(a, b);
        var ca := StmtCode(a, Some(StmtSize(b) - JMP_SIZE));
        StmtSizeOk(a, Some(StmtSize(b) - JMP_SIZE));
        assert StmtCode(st, Some(-JMP_SIZE)) == ca + cb;
        hide StmtCode;
        HitsEndRight(ca, cb, StmtSize(b));
      }
  }

  lemma NoHit(code: seq<Instr>, last: Instr, size: nat)
    requires AllPlain(code)
    ensures !HitsEnd(code + [last], size)
  {
    hide Size;
    assert forall n :: 0 <= n < |code| ==> PlainInstr((code + [last])[n]);
  }

  lemma IfHit(st: Stmt)
    requires st.If? && |StmtCode(st.body, Some(-JMP_SIZE))| > 0
    ensures HitsEnd(StmtCode(st, Some(-JMP_SIZE)), StmtSize(st))
  {
    hide Size, CondCode, StmtCode;
    var If(c, b) := st;
    var j, cb := Jcc(SkipCC(c), StmtSize(b)), StmtCode(b, Some(-JMP_SIZE));
    var head := CondCode(c) + [j];
    IfShape(st);
    CondTarget(c, j);
    var n := |head| - 1;
    TargetLeft(head, cb, n);
    assert (head + cb)[n] == j;
  }

  lemma IfShape(st: Stmt)
    requires st.If?
    ensures StmtCode(st, Some(-JMP_SIZE))
         == CondCode(st.cond) + [Jcc(SkipCC(st.cond), StmtSize(st.body))] + StmtCode(st.body, Some(-JMP_SIZE))
  {
    hide CondCode;
  }

  /** Exactly when the generated branches are right: every branch of a body as
      finally emitted lands on an instruction or on the epilogue behind it,
      unless its trailing `return` is inside an `if`. */
  lemma BranchesLandIff(body: Stmt)
    ensures BranchesLand(BodyCode(body)) <==> !TailIf(body)
  {
    hide Size, StmtCode, Boundary;
    TailIfReturns(body);
    if TailReturn(body) {
      TailShape(body, -JMP_SIZE);
      EndHit(body);
      var c := StmtCode(body, Some(-JMP_SIZE));
      StmtBranches(body, -JMP_SIZE);
      StmtSizeOk(body, Some(-JMP_SIZE));
      Deleted(c[..|c| - 1], Jmp(-JMP_SIZE), StmtSize(body));
    } else {
      StmtBranches(body, 0);
      StmtSizeOk(body, Some(0));
      BoundaryEnds(StmtCode(body, Some(0)));
    }
  }

  lemma Deleted(d: seq<Instr>, last: Instr, size: nat)
    requires Size(d) == size - JMP_SIZE && Size(d + [last]) == size
    requires BranchesTo(d + [last], size - JMP_SIZE)
    ensures BranchesLand(d) <==> !HitsEnd(d + [last], size)
  {
    hide Size;
    var c := d + [last];
    if HitsEnd(c, size) {
      var n :| 0 <= n < |c| - 1 && IsBranch(c[n]) && Target(c, n) == size;
      TargetLeft(d, [last], n);
      if Boundary(d, size) {
        var m :| 0 <= m <= |d| && Size(d[..m]) == size;
        PrefixSize(d, m);
      }
    } else {
      BoundaryEnds(d);
      assert c[..|c|] == c;
      forall n | 0 <= n < |d| && IsBranch(d[n])
        ensures Boundary(d, Target(d, n))
      {
        TargetLeft(d, [last], n);
        assert c[n] == d[n];
        if Boundary(c, Target(c, n)) {
          var m :| 0 <= m <= |c| && Size(c[..m]) == Target(c, n);
          if m < |c| { assert c[..m] == d[..m]; }
        }
      }
    }
  }

  // ------------------------------------------------------------- and at run time

  /** What becomes of a body whose last `return` is inside an `if`, on a run that
      falls off its end: the machine goes on five bytes behind the start of the
      epilogue. */
  lemma SkipsEpilogueStart(W: World, bytes: seq<byte>, body: Stmt, off: int, s: State, fuel: nat)
    returns (steps: nat, c: Cfg)
    requires TailIf(body) && CodeAt(bytes, off, BodyCode(body)) && AllWf(BodyCode(body))
    requires Ready(W, s, 0, SlotsS(body)) && FitsS(body)
    requires Exec(W, body, s.regs[RAX], s.mem, fuel).Normal?
    ensures Steps(W, bytes, At(off, s), steps) == Some(c)
    ensures c.At? && c.rip == off + Size(BodyCode(body)) + JMP_SIZE
  {
    hide Size, StmtCode, Steps, CodeAt, AllWf, Exec, BodyCode;
    BodyWf(body);
    steps, c := BodyCorrect(W, bytes, body, off, s, fuel);
  }

  /** Machine code that faults without having returned never returns. */
  lemma NeverReturns(W: World, bytes: seq<byte>, c0: Cfg, k: nat, c: Cfg, n: nat)
    requires Good16(c0.s) && Steps(W, bytes, c0, k) == Some(c) && c.At? && StepAt(W, bytes, c) == None
    ensures Steps(W, bytes, c0, n).Some? ==> Steps(W, bytes, c0, n).value.At?
  {
    if n <= k {
      StillRunning(W, bytes, c0, n, k, c);
    } else {
      StepsAdd(W, bytes, c0, k, n - k);
    }
  }

  lemma WholeBuffer(code: seq<Instr>)
    ensures CodeAt(EncodeAll(code), 0, code)
  {
    hide EncodeAll;
    var bytes := EncodeAll(code);
    assert bytes[0..|bytes|] == bytes;
  }

  /** A restore is four bytes, and its opcode the second. */
  lemma RestoreBytes(k: nat)
    requires k < 5
    ensures var b := Encode(Load(SaveReg(k), RBP, -8 * (k + 1))); |b| == 4 && b[1] == 0x8B
  {}

  lemma LastBytes()
    ensures Encode(Leave) == [0xC9] && Encode(Ret) == [0xC3]
  {}

  lemma EpilogueShort()
    ensures Epilogue(0) == [Leave, Ret] && Epilogue(1) == [Load(R12, RBP, -16), Leave, Ret]
  {
    assert Restores(1, 2) == [];
    assert Restores(1, 1) == [Load(R12, RBP, -16)];
  }

  lemma RestoreIs(need: nat, k: nat)
    requires k < 5
    ensures Restores(need, k) == (if SlotUsed(need, k) then [Load(SaveReg(k), RBP, -8 * (k + 1))] else []) + Restores(need, k + 1)
  {}

  lemma EpilogueParts(need: nat)
    requires 2 <= need <= 5
    ensures var k := if need == 5 then 0 else 1;
            Epilogue(need) == [Load(SaveReg(k), RBP, -8 * (k + 1))] + [Load(SaveReg(k + 1), RBP, -8 * (k + 2))]
                              + (Restores(need, k + 2) + [Leave, Ret])
  {
    hide Restores, SaveReg;
    RestoreIs(need, 0);
    RestoreIs(need, 1);
    RestoreIs(need, 2);
  }

  /** Five bytes into the epilogue: behind it, at its `ret`, or inside its second
      restore. */
  lemma FiveBytesIn(need: nat)
    requires need <= 5
    ensures var e := EncodeAll(Epilogue(need));
            && (need == 0 ==> |e| == 2)
            && (need == 1 ==> |e| == 6 && e[5] == 0xC3)
            && (need >= 2 ==> |e| > 5 && e[5] == 0x8B)
  {
    hide Encode, EncodeAll, Epilogue, Restores;
    LastBytes();
    EpilogueShort();
    var code := Epilogue(need);
    if need == 0 {
      TwoRestores([], Leave, Ret, []);
      assert code == [] + [Leave] + [Ret] + [];
    } else if need == 1 {
      RestoreBytes(1);
      var load := Load(R12, RBP, -16);
      assert code == [load] + [Leave] + [Ret] + [];
      TwoRestores([load], Leave, Ret, []);
      EncodeAllOne(load);
    } else {
      var k := if need == 5 then 0 else 1;
      EpilogueParts(need);
      RestoreBytes(k);
      RestoreBytes(k + 1);
      var a, b := Load(SaveReg(k), RBP, -8 * (k + 1)), Load(SaveReg(k + 1), RBP, -8 * (k + 2));
      var rest := Restores(need, k + 2) + [Leave, Ret];
      assert code == [] + [a] + [b] + rest;
      TwoRestores([], a, b, rest);
    }
  }

  lemma TwoRestores(pre: seq<Instr>, a: Instr, b: Instr, rest: seq<Instr>)
    ensures EncodeAll(pre + [a] + [b] + rest) == EncodeAll(pre) + Encode(a) + Encode(b) + EncodeAll(rest)
    ensures EncodeAll([]) == []
  {
    hide Encode;
    EncodeAllConcat(pre + [a] + [b], rest);
    EncodeAllConcat(pre + [a], [b]);
    EncodeAllConcat(pre, [a]);
    EncodeAllOne(a);
    EncodeAllOne(b);
  }

  lemma DecodeFifth(bs: seq<byte>)
    ensures |bs| > 0 && bs[0] == 0x8B ==> Decode(bs) == None
    ensures bs == [0xC3] ==> Decode(bs) == Some((Ret, 1))
    ensures bs == [] ==> Decode(bs) == None
  {}

  /** Where the epilogue lies in the function. */
  lemma EpilogueIn(f: Func)
    ensures var e, at := EncodeAll(Epilogue(NeedS(f.body))), EpilogueAt(0, f, NeedS(f.body));
            && 0 <= at <= |EncodeAll(FuncCode(f))| && EncodeAll(FuncCode(f))[at..] == e
  {
    hide Prologue, ParamCode, BodyCode, Epilogue, EncodeAll, NeedS;
    var need := NeedS(f.body);
    var head, body := Prologue(need) + ParamCode(f.params, 0), BodyCode(f.body);
    EncodeAllConcat(head + body, Epilogue(need));
    EncodeAllConcat(head, body);
  }

  /** Past the start of the epilogue there is no way back: no instruction of the
      generator begins there, or a `ret` with the frame still up. */
  lemma Astray(W: World, f: Func, c: Cfg, s0: State)
    requires NeedS(f.body) <= 5 && Entry(W, s0, SlotsS(f.body))
    requires Missed(s0, c, EpilogueAt(0, f, NeedS(f.body)), NeedS(f.body))
    ensures var r := StepAt(W, EncodeAll(FuncCode(f)), c);
            r == None || (NeedS(f.body) == 1 && r.value.Returned? && r.value.s.regs[RSP] as int == s0.regs[RSP] - 48)
  {
    hide Epilogue, FuncCode, EncodeAll, Decode, EpilogueAt, SlotsS, Step;
    var need, bytes := NeedS(f.body), EncodeAll(FuncCode(f));
    var e := EncodeAll(Epilogue(need));
    EpilogueIn(f);
    FiveBytesIn(need);
    if c.rip <= |bytes| {
      var bs := bytes[c.rip..];
      assert bs == bytes[EpilogueAt(0, f, need)..][5..];
      DecodeFifth(bs);
      if need == 1 { assert bs == [0xC3]; }
    }
  }

  /** What is reached after a run that went astray, at any number of steps. */
  lemma StaysAstray(W: World, bytes: seq<byte>, c0: Cfg, k: nat, c: Cfg, n: nat)
    requires Good16(c0.s) && Steps(W, bytes, c0, k) == Some(c) && c.At?
    requires var r := StepAt(W, bytes, c); r == None || r.value.Returned?
    ensures var r := Steps(W, bytes, c0, n); r.Some? ==> r.value.At? || Some(r.value) == StepAt(W, bytes, c)
  {
    hide StepAt;
    if n <= k {
      StillRunning(W, bytes, c0, n, k, c);
    } else {
      StepsAdd(W, bytes, c0, k, n - k);
      var r := StepAt(W, bytes, c);
      if r.Some? { ReturnedStops(W, bytes, r.value); }
    }
  }

  lemma ReturnedStops(W: World, bytes: seq<byte>, c: Cfg)
    requires c.Returned? && Good16(c.s)
    ensures StepAt(W, bytes, c) == None
  {}

  /** On a run that falls off its end, a function whose last `return` is inside an
      `if` gets past the start of its epilogue. */
  lemma FallsPast(W: World, f: Func, s0: State, fuel: nat) returns (k: nat, c: Cfg)
    requires TailIf(f.body) && FitsF(f) && AllWf(FuncCode(f)) && Entry(W, s0, SlotsS(f.body))
    requires FallsOff(W, f, ArgVals(s0, |f.params|), s0.mem, fuel)
    ensures Good16(s0) && Steps(W, EncodeAll(FuncCode(f)), At(0, s0), k) == Some(c)
    ensures Missed(s0, c, EpilogueAt(0, f, NeedS(f.body)), NeedS(f.body))
  {
    hide EncodeAll, Steps, AllWf, Prologue, ParamCode, BodyCode, Epilogue, Exec, StoreParams, Missed, SlotsS, CodeAt;
    var need := NeedS(f.body);
    assert FuncCode(f) == FuncSaving(f, need);
    hide FuncCode, FuncSaving;
    WholeBuffer(FuncCode(f));
    k, c := SavingCall(W, EncodeAll(FuncCode(f)), 0, f, need, s0, fuel);
  }

  /** A function, any function, runs right on exactly the runs that do not fall off
      the end behind a `return` inside an `if`: on those it returns with the value
      and memory its source ends with, on the others it never does. */
  lemma RunsRightIff(W: World, f: Func, s0: State, fuel: nat)
    requires FitsF(f) && AllWf(FuncCode(f)) && Entry(W, s0, SlotsS(f.body))
    requires ExecFunc(W, f, ArgVals(s0, |f.params|), s0.mem, fuel).Finished?
    ensures var o := ExecFunc(W, f, ArgVals(s0, |f.params|), s0.mem, fuel);
            (exists n: nat :: var r := Steps(W, EncodeAll(FuncCode(f)), At(0, s0), n); r.Some? && ReturnsWith(s0, r.value, o.v, o.mem))
            <==> !(TailIf(f.body) && FallsOff(W, f, ArgVals(s0, |f.params|), s0.mem, fuel))
  {
    hide EncodeAll, Steps, AllWf, Prologue, ParamCode, BodyCode, Epilogue, ExecFunc, FallsOff, SlotsS, CodeAt, Lost, EpilogueAt;
    var bytes, need, o := EncodeAll(FuncCode(f)), NeedS(f.body), ExecFunc(W, f, ArgVals(s0, |f.params|), s0.mem, fuel);
    if TailIf(f.body) && FallsOff(W, f, ArgVals(s0, |f.params|), s0.mem, fuel) {
      var k, c := FallsPast(W, f, s0, fuel);
      Astray(W, f, c, s0);
      forall n: nat
        ensures var r := Steps(W, bytes, At(0, s0), n); r.Some? ==> !ReturnsWith(s0, r.value, o.v, o.mem)
      {
        StaysAstray(W, bytes, At(0, s0), k, c, n);
      }
    } else {
      assert FuncCode(f) == FuncSaving(f, need);
      hide FuncCode, FuncSaving;
      WholeBuffer(FuncCode(f));
      var n, c := SavingCall(W, bytes, 0, f, need, s0, fuel);
      NothingLost(s0, c, o.v, o.mem, need);
    }
  }

  /** When such a function saves no register, a run that falls off its end never
      returns at all. */
  lemma TailIfNeverReturns(W: World, f: Func, s0: State, fuel: nat, n: nat)
    requires TailIf(f.body) && NeedS(f.body) == 0
    requires FitsF(f) && AllWf(FuncCode(f)) && Entry(W, s0, SlotsS(f.body))
    requires FallsOff(W, f, ArgVals(s0, |f.params|), s0.mem, fuel)
    ensures ExecFunc(W, f, ArgVals(s0, |f.params|), s0.mem, fuel).Finished?
    ensures var r := Steps(W, EncodeAll(FuncCode(f)), At(0, s0), n);
            r.Some? ==> r.value.At?
  {
    hide Steps, SlotsS, AllWf, FuncCode, EncodeAll, EpilogueAt;
    var k, c := FallsPast(W, f, s0, fuel);
    Astray(W, f, c, s0);
    NeverReturns(W, EncodeAll(FuncCode(f)), At(0, s0), k, c, n);
  }

  /** There is such a function: `if (0) return 7`, from any entry state. */
  lemma FailingFunction(W: World, s0: State, n: nat)
    requires Entry(W, s0, 0)
    ensures var f := Func([], If(Num(0), Return(Num(7))));
            && FitsF(f) && AllWf(FuncCode(f))
            && ExecFunc(W, f, [], s0.mem, 0) == Finished(0, s0.mem)
            && (var r := Steps(W, EncodeAll(FuncCode(f)), At(0, s0), n); r.Some? ==> r.value.At?)
  {
    var f := Func([], If(Num(0), Return(Num(7))));
    assert StmtSize(f.body) + JMP_SIZE < TWO31 by {
      hide Encode;
      assert Code(Num(7), RAX, false, 0, 0, 0) == [MovImm32(RAX, 7)];
      assert CondCode(Num(0)) == [MovImm32(RAX, 0)] + [TestRR(RAX, RAX)];
      SizeConcat([MovImm32(RAX, 0)], [TestRR(RAX, RAX)]);
      SizeOne(MovImm32(RAX, 0));
      SizeOne(TestRR(RAX, RAX));
      SizeOne(MovImm32(RAX, 7));
    }
    assert ExecFunc(W, f, [], s0.mem, 0) == Finished(0, s0.mem);
    assert ArgVals(s0, 0) == [];
    assert SlotsS(f.body) == 0 && NeedS(f.body) == 0 && FitsF(f) && TailIf(f.body) && FallsOff(W, f, [], s0.mem, 0);
    hide StmtSize, FuncCode, AllWf, EncodeAll, Steps, FallsOff, ArgVals;
    FuncCodeWf(f);
    TailIfNeverReturns(W, f, s0, 0, n);
  }
}
