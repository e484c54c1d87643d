/** What happens to the `return` branches of a body once it is complete: the one
    that would jump to the epilogue right behind it is cut off, and the others
    get their distance. */
module Returns {
  import opened Words
  import opened Isa
  import opened IsaRoundTrip
  import opened Source
  import opened Select
  import opened Layout
  import opened Plain
  import opened Ranges
  import opened FuncProof
  import opened Patch

  /** Every branch can reach the target. */
  ghost predicate Reach(offs: seq<nat>, target: int) {
    forall n :: 0 <= n < |offs| ==> I32(target - (offs[n] + 4))
  }

  lemma ReachJoin(a: seq<nat>, b: seq<nat>, target: int)
    ensures Reach(a + b, target) <==> Reach(a, target) && Reach(b, target)
  {
    if Reach(a + b, target) {
      forall n | 0 <= n < |a| ensures I32(target - (a[n] + 4)) { assert (a + b)[n] == a[n]; }
      forall n | 0 <= n < |b| ensures I32(target - (b[n] + 4)) { assert (a + b)[|a| + n] == b[n]; }
    }
  }

  lemma ReachOne(p: nat, target: int)
    ensures Reach([p], target) <==> I32(target - (p + 4))
  {
    assert [p][0] == p;
  }

  lemma OneWf(i: Instr)
    ensures AllWf([i]) <==> Wf(i)
  {
    assert [i][0] == i;
  }

  /** A statement can get its exit exactly when each `return` can reach it. */
  lemma {:induction false} ExitsFit(st: Stmt, x: int, base: nat)
    ensures AllWf(StmtCode(st, Some(x)))
       <==> AllWf(StmtCode(st, None)) && Reach(RetOffs(st, base), base + StmtSize(st) + x)
  {
    hide Size, Code, CondCode, SkipCC, AllWf, Reach;
    match st
    case Skip => ReachNone(base + StmtSize(st) + x);
    case ExprS(_) => ReachNone(base + StmtSize(st) + x);
    case Seq(a, b) =>
      ExitsFit(a, x + StmtSize(b), base);
      ExitsFit(b, x, base + StmtSize(a));
      AllWfSplit(StmtCode(a, None), StmtCode(b, None));
      AllWfSplit(StmtCode(a, Some(x + StmtSize(b))), StmtCode(b, Some(x)));
      ReachJoin(RetOffs(a, base), RetOffs(b, base + StmtSize(a)), base + StmtSize(st) + x);
    case If(c, b) =>
      var head := CondCode(c) + [Jcc(SkipCC(c), StmtSize(b))];
      ExitsFit(b, x, base + Size(CondCode(c)) + JCC_SIZE);
      AllWfSplit(head, StmtCode(b, None));
      AllWfSplit(head, StmtCode(b, Some(x)));
    case While(c, b) =>
      var head, back := CondCode(c) + [Jcc(SkipCC(c), StmtSize(b) + JMP_SIZE)], [Jmp(Back(StmtSize(st)))];
      ExitsFit(b, x + JMP_SIZE, base + Size(CondCode(c)) + JCC_SIZE);
      AllWfSplit(head + StmtCode(b, None), back);
      AllWfSplit(head, StmtCode(b, None));
      AllWfSplit(head + StmtCode(b, Some(x + JMP_SIZE)), back);
      AllWfSplit(head, StmtCode(b, Some(x + JMP_SIZE)));
    case Return(_) => ReturnFits(st, x, base);
  }

  lemma ReturnFits(st: Stmt, x: int, base: nat)
    requires st.Return?
    ensures AllWf(StmtCode(st, Some(x)))
       <==> AllWf(StmtCode(st, None)) && Reach(RetOffs(st, base), base + StmtSize(st) + x)
  {
    hide Size, Code, AllWf, Reach;
    var code := Code(st.e, RAX, false, 0, 0, 0);
    AllWfSplit(code, [Jmp(0)]);
    AllWfSplit(code, [Jmp(x)]);
    OneWf(Jmp(0));
    OneWf(Jmp(x));
    ReachOne(base + Size(code) + 1, base + StmtSize(st) + x);
  }

  lemma ReachNone(target: int)
    ensures Reach([], target)
  {}

  // ------------------------------------------------------- the trailing return

  /** No tree compiles to nothing. */
  lemma {:induction false} CodeSome(e: Expr, t: Reg, addr: bool, k: nat, j: nat, d: nat)
    ensures |Code(e, t, addr, k, j, d)| > 0
    decreases e
  {
    match e
    case Num(_) =>
    case Str(_) =>
    case Cell(_) =>
    case Arr(_, _) =>
    case Index(b, _) => CodeSome(b, t, false, k, j, d);
    case Assign(a, v) => if a.Cell? { CodeSome(v, t, false, k, j, d); } else { CodeSome(a, t, true, k, j, d); }
    case AddAssign(a, _) => CodeSome(a, t, true, k, j, d);
    case Bin(_, l, _) => CodeSome(l, t, false, k, j, d);
    case Call(_, _) =>
  }

  lemma SizeAtLeast(c: seq<Instr>)
    ensures Size(c) >= |c|
  {}

  lemma {:induction false} NoCodeIff(st: Stmt)
    ensures NoCode(st) <==> StmtSize(st) == 0
  {
    hide Size, Code, CondCode;
    match st
    case Skip =>
    case Seq(a, b) => NoCodeIff(a); NoCodeIff(b);
    case ExprS(e) =>
      CodeSome(e, RAX, true, 0, 0, 0);
      SizeAtLeast(Code(e, RAX, true, 0, 0, 0));
    case If(_, _) =>
    case While(_, _) =>
    case Return(_) =>
  }

  /** The last `return` branch ends the body exactly when the body ends with it. */
  lemma {:induction false} LastIsTail(st: Stmt, base: nat)
    ensures var offs := RetOffs(st, base);
            TailReturn(st) <==> offs != [] && offs[|offs| - 1] + 4 == base + StmtSize(st)
  {
    hide Size, Code, CondCode;
    match st
    case Skip =>
    case ExprS(_) =>
    case Return(_) =>
    case If(c, b) => LastIsTail(b, base + Size(CondCode(c)) + JCC_SIZE);
    case While(c, b) => RetsSpaced(st.body, base + Size(CondCode(c)) + JCC_SIZE);
    case Seq(a, b) =>
      LastIsTail(a, base);
      LastIsTail(b, base + StmtSize(a));
      NoCodeIff(b);
      RetsSpaced(a, base);
      RetsSpaced(b, base + StmtSize(a));
  }

  /** A jump's opcode is in front of the field at p. */
  predicate JumpField(bytes: seq<byte>, p: int) { 1 <= p <= |bytes| && bytes[p - 1] == 0xE9 }

  /** The field that is cut off. */
  lemma LastPlace(pre: seq<byte>, st: Stmt)
    requires TailReturn(st)
    ensures var full := pre + EncodeAll(StmtCode(st, None));
            var offs := RetOffs(st, |pre|);
            && |offs| > 0 && |full| == |pre| + StmtSize(st) && |full| >= JMP_SIZE && offs[|offs| - 1] == |full| - 4
            && forall n :: 0 <= n < |offs| - 1 ==> offs[n] + JMP_SIZE <= offs[|offs| - 1]
  {
    hide StmtCode, EncodeAll, RetOffs, StmtSize;
    LastIsTail(st, |pre|);
    RetsSpaced(st, |pre|);
    EncodedSize(st, None);
    TailShape(st, 0);
  }

  /** Patching all but the last branch of a body that is cut off before it. */
  lemma PatchCut(pre: seq<byte>, st: Stmt, full: seq<byte>, offs: seq<nat>)
    requires TailReturn(st) && full == pre + EncodeAll(StmtCode(st, None)) && offs == RetOffs(st, |pre|)
    ensures |full| >= JMP_SIZE && |offs| > 0 && JumpField(full, offs[|offs| - 1])
    ensures PatchesTo(full[..|full| - JMP_SIZE], offs[..|offs| - 1], |full| - JMP_SIZE, pre + EncodeAll(BodyCode(st)))
  {
    hide StmtCode, EncodeAll, Encode, PatchesTo, BodyCode, StmtSize, RetOffs, TailReturn, ExitPatched;
    var result := pre + EncodeAll(BodyCode(st));
    LastPlace(pre, st);
    var cut := TailBytes(pre, st);
    PatchStmt(pre, st, [], -JMP_SIZE);
    NoPost(pre, st);
    JumpBytes(0);
    assert full[..|full| - JMP_SIZE] == cut;
    CutLast(cut, offs, |cut|, result);
  }

  lemma NoPost(pre: seq<byte>, st: Stmt)
    requires ExitPatched(pre, st, [], -JMP_SIZE)
    ensures PatchesTo(pre + EncodeAll(StmtCode(st, None)), RetOffs(st, |pre|), |pre| + StmtSize(st) - JMP_SIZE,
                      pre + EncodeAll(StmtCode(st, Some(-JMP_SIZE))))
  {
    hide StmtCode, EncodeAll, PatchesTo, RetOffs;
    assert pre + EncodeAll(StmtCode(st, None)) + [] == pre + EncodeAll(StmtCode(st, None));
    assert pre + EncodeAll(StmtCode(st, Some(-JMP_SIZE))) + [] == pre + EncodeAll(StmtCode(st, Some(-JMP_SIZE)));
  }

  /** The last five bytes of such a body, before and after patching. */
  lemma TailBytes(pre: seq<byte>, st: Stmt) returns (cut: seq<byte>)
    requires TailReturn(st)
    ensures pre + EncodeAll(StmtCode(st, None)) == cut + Encode(Jmp(0))
    ensures pre + EncodeAll(StmtCode(st, Some(-JMP_SIZE))) == pre + EncodeAll(BodyCode(st)) + Encode(Jmp(-JMP_SIZE))
  {
    hide StmtCode, EncodeAll, Encode;
    CutShape(st);
    var c, o := BodyCode(st), StmtCode(st, None);
    EncodeAllConcat(c, [Jmp(-JMP_SIZE)]);
    EncodeAllOne(Jmp(-JMP_SIZE));
    OpenTail(st);
    EncodeAllConcat(o[..|o| - 1], [Jmp(0)]);
    EncodeAllOne(Jmp(0));
    cut := pre + EncodeAll(o[..|o| - 1]);
    assert pre + (EncodeAll(o[..|o| - 1]) + Encode(Jmp(0))) == cut + Encode(Jmp(0));
    assert pre + (EncodeAll(c) + Encode(Jmp(-JMP_SIZE))) == pre + EncodeAll(c) + Encode(Jmp(-JMP_SIZE));
  }

  lemma {:induction false} OpenTail(st: Stmt)
    requires TailReturn(st)
    ensures var c := StmtCode(st, None); |c| > 0 && c == c[..|c| - 1] + [Jmp(0)]
  {
    hide Code, CondCode, Size, SkipCC;
    match st
    case Return(_) =>
    case If(_, b) => OpenTail(b);
    case Seq(a, b) =>
      if NoCode(b) {
        EmptyCode(b, None);
        OpenTail(a);
      } else {
        OpenTail(b);
      }
  }

  lemma CutLast(cut: seq<byte>, offs: seq<nat>, target: int, result: seq<byte>)
    requires |offs| > 0 && offs[|offs| - 1] == |cut| + 1 && target == |cut|
    requires forall n :: 0 <= n < |offs| - 1 ==> offs[n] + JMP_SIZE <= offs[|offs| - 1]
    requires PatchesTo(cut + Encode(Jmp(0)), offs, target, result + Encode(Jmp(-JMP_SIZE)))
    ensures PatchesTo(cut, offs[..|offs| - 1], target, result)
    ensures JumpField(cut + Encode(Jmp(0)), offs[|offs| - 1])
  {
    hide Patched, Imm32;
    BranchBytes(0, 0);
    JumpBytes(0);
    var last, first := |cut| + 1, offs[..|offs| - 1];
    PatchJmp(cut, [], target);
    JumpBytes(-JMP_SIZE);
    assert cut + Encode(Jmp(0)) + [] == cut + Encode(Jmp(0));
    assert cut + Encode(Jmp(-JMP_SIZE)) + [] == cut + Encode(Jmp(-JMP_SIZE));
    hide Encode;
    assert PatchAll(cut + Encode(Jmp(0)), offs, target) == PatchAll(cut + Encode(Jmp(-JMP_SIZE)), first, target);
    PatchAllFrame(cut, Encode(Jmp(-JMP_SIZE)), first, target);
    SameTail(PatchAll(cut, first, target), result, Encode(Jmp(-JMP_SIZE)));
  }

  lemma SameTail(a: seq<byte>, b: seq<byte>, tail: seq<byte>)
    requires a + tail == b + tail
    ensures a == b
  {
    assert |a| == |b|;
    assert (a + tail)[..|a|] == a && (b + tail)[..|b|] == b;
  }

  /** The branches left over reach the end exactly when the final body has all
      its distances in range. */
  lemma BodyFits(st: Stmt, base: nat)
    requires AllWf(StmtCode(st, None))
    ensures var offs := RetOffs(st, base);
            AllWf(BodyCode(st)) <==>
              if TailReturn(st) then |offs| > 0 && Reach(offs[..|offs| - 1], base + StmtSize(st) - JMP_SIZE)
              else Reach(offs, base + StmtSize(st))
  {
    hide StmtCode, AllWf, Reach;
    if TailReturn(st) {
      CutFits(st, base);
    } else {
      ExitsFit(st, 0, base);
    }
  }

  lemma CutFits(st: Stmt, base: nat)
    requires AllWf(StmtCode(st, None)) && TailReturn(st)
    ensures var offs := RetOffs(st, base);
            |offs| > 0 && (AllWf(BodyCode(st)) <==> Reach(offs[..|offs| - 1], base + StmtSize(st) - JMP_SIZE))
  {
    hide StmtCode, AllWf, Reach, RetOffs, StmtSize, TailReturn, BodyCode;
    var offs, target := RetOffs(st, base), base + StmtSize(st) - JMP_SIZE;
    assert |offs| > 0 && (AllWf(StmtCode(st, Some(-JMP_SIZE))) <==> Reach(offs, target)) && offs[|offs| - 1] == target + 1 by {
      LastIsTail(st, base);
      ExitsFit(st, -JMP_SIZE, base);
    }
    assert AllWf(StmtCode(st, Some(-JMP_SIZE))) <==> AllWf(BodyCode(st)) by {
      CutShape(st);
      var c := StmtCode(st, Some(-JMP_SIZE));
      AllWfSplit(c[..|c| - 1], [Jmp(-JMP_SIZE)]);
      CutJumpFits();
    }
    CutReach(offs, target);
  }

  lemma CutReach(offs: seq<nat>, target: int)
    requires |offs| > 0 && offs[|offs| - 1] == target + 1
    ensures Reach(offs, target) <==> Reach(offs[..|offs| - 1], target)
  {
    var last := offs[|offs| - 1];
    assert offs == offs[..|offs| - 1] + [last];
    ReachJoin(offs[..|offs| - 1], [last], target);
    ReachOne(last, target);
  }

  lemma CutShape(st: Stmt)
    requires TailReturn(st)
    ensures var c := StmtCode(st, Some(-JMP_SIZE)); |c| > 0 && c == c[..|c| - 1] + [Jmp(-JMP_SIZE)] && BodyCode(st) == c[..|c| - 1]
  {
    hide StmtCode, Size;
    TailShape(st, -JMP_SIZE);
  }

  lemma CutJumpFits()
    ensures AllWf([Jmp(-JMP_SIZE)]) && I32(-JMP_SIZE)
  {}
}
