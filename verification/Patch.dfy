/** Back-patching: the rel32 field of a branch is overwritten once its target is
    known. Patching the bytes gives the bytes of the code with that distance. */
module Patch {
  import opened Words
  import opened Isa
  import opened IsaRoundTrip
  import opened Source
  import opened Select
  import opened Layout
  import opened Plain
  import opened Ranges

  /** The field at p, made to branch to `target`. */
  function Patched(bytes: seq<byte>, p: nat, target: int): (r: seq<byte>)
    requires p + 4 <= |bytes|
    ensures |r| == |bytes|
  {
    bytes[..p] + Imm32(target - (p + 4)) + bytes[p + 4..]
  }

  lemma PatchMiddle(pre: seq<byte>, field: seq<byte>, post: seq<byte>, target: int)
    requires |field| == 4
    ensures Patched(pre + field + post, |pre|, target) == pre + Imm32(target - (|pre| + 4)) + post
  {
    var bytes := pre + field + post;
    assert bytes[..|pre|] == pre;
    assert bytes[|pre| + 4..] == post;
  }

  lemma BranchBytes(cc: int, rel: int)
    ensures Encode(Jmp(rel)) == [0xE9] + Imm32(rel)
    ensures Encode(Jcc(cc, rel)) == [0x0F, 0x80 + cc % 16] + Imm32(rel)
  {
    hide Imm32;
  }

  lemma PatchBranch(pre: seq<byte>, op: seq<byte>, post: seq<byte>, target: int)
    ensures Patched(pre + (op + Imm32(0)) + post, |pre| + |op|, target)
         == pre + (op + Imm32(target - (|pre| + |op| + 4))) + post
  {
    hide Imm32, Patched;
    PatchMiddle(pre + op, Imm32(0), post, target);
    assert pre + op + Imm32(0) + post == pre + (op + Imm32(0)) + post;
    var d := Imm32(target - (|pre| + |op| + 4));
    assert pre + op + d + post == pre + (op + d) + post;
  }

  /** A patched branch is the branch with its distance. */
  lemma PatchJmp(pre: seq<byte>, post: seq<byte>, target: int)
    ensures |Encode(Jmp(0))| == JMP_SIZE
    ensures Patched(pre + Encode(Jmp(0)) + post, |pre| + 1, target)
         == pre + Encode(Jmp(target - (|pre| + JMP_SIZE))) + post
  {
    hide Encode, Imm32, Patched;
    BranchBytes(0, 0);
    BranchBytes(0, target - (|pre| + JMP_SIZE));
    PatchBranch(pre, [0xE9], post, target);
  }

  lemma PatchJcc(cc: int, pre: seq<byte>, post: seq<byte>, target: int)
    ensures |Encode(Jcc(cc, 0))| == JCC_SIZE
    ensures Patched(pre + Encode(Jcc(cc, 0)) + post, |pre| + 2, target)
         == pre + Encode(Jcc(cc, target - (|pre| + JCC_SIZE))) + post
  {
    hide Encode, Imm32, Patched;
    BranchBytes(cc, 0);
    BranchBytes(cc, target - (|pre| + JCC_SIZE));
    PatchBranch(pre, [0x0F, 0x80 + cc % 16], post, target);
  }

  /** The same on code: instruction |a| gets its distance. */
  lemma PatchCode(before: seq<byte>, a: seq<Instr>, i: Instr, tail: seq<Instr>, target: int)
    requires i.Jmp? || i.Jcc?
    requires i.rel == 0
    ensures var start := |before| + Size(a);
            var (p, size) := if i.Jmp? then (start + 1, JMP_SIZE) else (start + 2, JCC_SIZE);
            var bytes := before + EncodeAll(a + [i] + tail);
            p + 4 <= |bytes|
            && Patched(bytes, p, target) == before + EncodeAll(a + [i.(rel := target - (start + size))] + tail)
  {
    hide Encode, EncodeAll, Patched, Imm32;
    var start := |before| + Size(a);
    var i' := i.(rel := target - (start + if i.Jmp? then JMP_SIZE else JCC_SIZE));
    var ea, et := EncodeAll(a), EncodeAll(tail);
    CodeBytes(before, a, i, tail);
    CodeBytes(before, a, i', tail);
    if i.Jmp? {
      PatchJmp(before + ea, et, target);
    } else {
      PatchJcc(i.cc, before + ea, et, target);
    }
  }

  lemma CodeBytes(before: seq<byte>, a: seq<Instr>, i: Instr, tail: seq<Instr>)
    ensures before + EncodeAll(a + [i] + tail) == before + EncodeAll(a) + Encode(i) + EncodeAll(tail)
  {
    hide Encode, EncodeAll;
    EncodeAllConcat(a + [i], tail);
    EncodeAllConcat(a, [i]);
    EncodeAllOne(i);
    assert before + (EncodeAll(a) + Encode(i) + EncodeAll(tail)) == before + EncodeAll(a) + Encode(i) + EncodeAll(tail);
  }

  /** Patching leaves what is behind alone. */
  lemma PatchFrame(bytes: seq<byte>, tail: seq<byte>, p: nat, target: int)
    requires p + 4 <= |bytes|
    ensures Patched(bytes + tail, p, target) == Patched(bytes, p, target) + tail
  {
    assert (bytes + tail)[..p] == bytes[..p];
    assert (bytes + tail)[p + 4..] == bytes[p + 4..] + tail;
  }

  // ----------------------------------------------------------- return branches

  /** Offsets of the rel32 fields of a statement's `return` branches, when its
      code starts at base. */
  function RetOffs(st: Stmt, base: nat): seq<nat> {
    match st
    case Skip => []
    case Seq(a, b) => RetOffs(a, base) + RetOffs(b, base + StmtSize(a))
    case ExprS(_) => []
    case If(c, b) => RetOffs(b, base + Size(CondCode(c)) + JCC_SIZE)
    case While(c, b) => RetOffs(b, base + Size(CondCode(c)) + JCC_SIZE)
    case Return(e) => [base + Size(Code(e, RAX, false, 0, 0, 0)) + 1]
  }

  /** The fields lie inside the statement, in order, a whole branch apart. */
  ghost predicate Spaced(offs: seq<nat>, lo: int, hi: int) {
    && (forall n :: 0 <= n < |offs| ==> lo < offs[n] && offs[n] + 4 <= hi)
    && (forall n, m :: 0 <= n < m < |offs| ==> offs[n] + JMP_SIZE <= offs[m])
  }

  lemma SpacedJoin(a: seq<nat>, b: seq<nat>, lo: int, mid: int, hi: int)
    requires Spaced(a, lo, mid) && Spaced(b, mid, hi) && lo <= mid <= hi
    ensures Spaced(a + b, lo, hi)
  {
    forall n, m | 0 <= n < m < |a + b|
      ensures (a + b)[n] + JMP_SIZE <= (a + b)[m]
    {
      assert (a + b)[n] == if n < |a| then a[n] else b[n - |a|];
      assert (a + b)[m] == if m < |a| then a[m] else b[m - |a|];
    }
  }

  lemma {:induction false} RetsSpaced(st: Stmt, base: nat)
    ensures Spaced(RetOffs(st, base), base, base + StmtSize(st))
  {
    hide Size, Code, CondCode, Spaced;
    match st
    case Skip => SpacedOne([], base, base);
    case Seq(a, b) =>
      var mid := base + StmtSize(a);
      RetsSpaced(a, base);
      RetsSpaced(b, mid);
      SpacedJoin(RetOffs(a, base), RetOffs(b, mid), base, mid, base + StmtSize(st));
    case ExprS(_) => SpacedOne([], base, base + StmtSize(st));
    case If(c, b) =>
      var from := base + Size(CondCode(c)) + JCC_SIZE;
      RetsSpaced(b, from);
      SpacedWider(RetOffs(b, from), from, from + StmtSize(b), base, base + StmtSize(st));
    case While(c, b) =>
      var from := base + Size(CondCode(c)) + JCC_SIZE;
      RetsSpaced(b, from);
      SpacedWider(RetOffs(b, from), from, from + StmtSize(b), base, base + StmtSize(st));
    case Return(_) => SpacedOne(RetOffs(st, base), base, base + StmtSize(st));
  }

  lemma SpacedOne(offs: seq<nat>, lo: int, hi: int)
    requires |offs| <= 1 && (|offs| == 1 ==> lo < offs[0] && offs[0] + 4 <= hi)
    ensures Spaced(offs, lo, hi)
  {}

  lemma SpacedWider(offs: seq<nat>, lo: int, hi: int, lo': int, hi': int)
    requires Spaced(offs, lo, hi) && lo' <= lo && hi <= hi'
    ensures Spaced(offs, lo', hi')
  {}

  /** All the fields, from the last to the first. */
  function PatchAll(bytes: seq<byte>, offs: seq<nat>, target: int): (r: seq<byte>)
    requires forall n :: 0 <= n < |offs| ==> offs[n] + 4 <= |bytes|
    ensures |r| == |bytes|
    decreases |offs|
  {
    if offs == [] then bytes
    else PatchAll(Patched(bytes, offs[|offs| - 1], target), offs[..|offs| - 1], target)
  }

  lemma {:induction false} PatchAllConcat(bytes: seq<byte>, a: seq<nat>, b: seq<nat>, target: int)
    requires forall n :: 0 <= n < |a + b| ==> (a + b)[n] + 4 <= |bytes|
    ensures forall n :: 0 <= n < |a| ==> a[n] + 4 <= |bytes|
    ensures forall n :: 0 <= n < |b| ==> b[n] + 4 <= |bytes|
    ensures PatchAll(bytes, a + b, target) == PatchAll(PatchAll(bytes, b, target), a, target)
    decreases |b|
  {
    forall n | 0 <= n < |a| ensures a[n] + 4 <= |bytes| { assert (a + b)[n] == a[n]; }
    forall n | 0 <= n < |b| ensures b[n] + 4 <= |bytes| { assert (a + b)[|a| + n] == b[n]; }
    if b == [] {
      assert a + b == a;
    } else {
      var b', last := b[..|b| - 1], b[|b| - 1];
      assert (a + b)[..|a + b| - 1] == a + b';
      assert (a + b)[|a + b| - 1] == last;
      PatchAllConcat(Patched(bytes, last, target), a, b', target);
    }
  }

  lemma {:induction false} PatchAllFrame(bytes: seq<byte>, tail: seq<byte>, offs: seq<nat>, target: int)
    requires forall n :: 0 <= n < |offs| ==> offs[n] + 4 <= |bytes|
    ensures PatchAll(bytes + tail, offs, target) == PatchAll(bytes, offs, target) + tail
    decreases |offs|
  {
    hide Patched;
    if offs != [] {
      var last := offs[|offs| - 1];
      PatchFrame(bytes, tail, last, target);
      PatchAllFrame(Patched(bytes, last, target), tail, offs[..|offs| - 1], target);
    }
  }

  /** Patching these fields turns bytes into result. */
  ghost predicate PatchesTo(bytes: seq<byte>, offs: seq<nat>, target: int, result: seq<byte>) {
    (forall n :: 0 <= n < |offs| ==> offs[n] + 4 <= |bytes|) && PatchAll(bytes, offs, target) == result
  }

  lemma PatchesNone(bytes: seq<byte>, target: int)
    ensures PatchesTo(bytes, [], target, bytes)
  {}

  lemma PatchesOne(bytes: seq<byte>, p: nat, target: int)
    requires p + 4 <= |bytes|
    ensures PatchesTo(bytes, [p], target, Patched(bytes, p, target))
  {
    assert [p][..0] == [];
  }

  lemma PatchesBoth(bytes: seq<byte>, a: seq<nat>, b: seq<nat>, target: int, mid: seq<byte>, result: seq<byte>)
    requires PatchesTo(bytes, b, target, mid) && PatchesTo(mid, a, target, result)
    ensures PatchesTo(bytes, a + b, target, result)
  {
    hide PatchAll;
    PatchAllConcat(bytes, a, b, target);
  }

  /** Patching the `return` branches of a statement in the buffer gives the code
      of the statement with that exit. */
  ghost predicate ExitPatched(pre: seq<byte>, st: Stmt, post: seq<byte>, x: int) {
    PatchesTo(pre + EncodeAll(StmtCode(st, None)) + post, RetOffs(st, |pre|), |pre| + StmtSize(st) + x,
              pre + EncodeAll(StmtCode(st, Some(x))) + post)
  }

  lemma {:induction false} PatchStmt(pre: seq<byte>, st: Stmt, post: seq<byte>, x: int)
    ensures ExitPatched(pre, st, post, x)
    decreases st, 1
  {
    hide EncodeAll, Code, CondCode, PatchesTo, StmtCode, ExitPatched;
    match st
    case Skip => NothingToPatch(pre, st, post, x);
    case ExprS(_) => NothingToPatch(pre, st, post, x);
    case Seq(a, b) => PatchSeq(pre, st, post, x);
    case If(c, b) => PatchIf(pre, st, post, x);
    case While(c, b) => PatchWhile(pre, st, post, x);
    case Return(e) => PatchReturn(pre, st, post, x);
  }

  lemma NothingToPatch(pre: seq<byte>, st: Stmt, post: seq<byte>, x: int)
    requires st.Skip? || st.ExprS?
    ensures ExitPatched(pre, st, post, x)
  {
    hide Code, EncodeAll, PatchesTo, Size;
    PatchesNone(pre + EncodeAll(StmtCode(st, None)) + post, |pre| + StmtSize(st) + x);
  }

  lemma PatchSeq(pre: seq<byte>, st: Stmt, post: seq<byte>, x: int)
    requires st.Seq?
    ensures ExitPatched(pre, st, post, x)
    decreases st, 0
  {
    hide EncodeAll, Code, CondCode, PatchesTo, Size;
    var Seq(a, b) := st;
    var size, offs := StmtSize(b), RetOffs(st, |pre|);
    var ca, ca', cb, cb' := StmtCode(a, None), StmtCode(a, Some(x + size)), StmtCode(b, None), StmtCode(b, Some(x));
    var target := |pre| + StmtSize(st) + x;
    assert StmtCode(st, None) == ca + cb && StmtCode(st, Some(x)) == ca' + cb';
    assert offs == RetOffs(a, |pre|) + RetOffs(b, |pre| + StmtSize(a));
    assert StmtSize(st) == StmtSize(a) + size;
    hide StmtCode, StmtSize, RetOffs;
    EncodeAllConcat(ca, cb);
    EncodeAllConcat(ca', cb');
    EncodedSize(a, None);
    PatchStmt(pre + EncodeAll(ca), b, post, x);
    PatchStmt(pre, a, EncodeAll(cb') + post, x + size);
    Regroup(pre, EncodeAll(ca), EncodeAll(cb), post);
    Regroup(pre, EncodeAll(ca), EncodeAll(cb'), post);
    Regroup(pre, EncodeAll(ca'), EncodeAll(cb'), post);
    PatchesBoth(pre + (EncodeAll(ca) + EncodeAll(cb)) + post, RetOffs(a, |pre|), RetOffs(b, |pre| + StmtSize(a)), target,
                pre + EncodeAll(ca) + (EncodeAll(cb') + post), pre + (EncodeAll(ca') + EncodeAll(cb')) + post);
  }

  lemma EncodedSize(st: Stmt, exit: Option<int>)
    ensures |EncodeAll(StmtCode(st, exit))| == StmtSize(st)
  {
    hide StmtCode, StmtSize, EncodeAll;
    StmtSizeOk(st, exit);
  }

  lemma Regroup(pre: seq<byte>, a: seq<byte>, b: seq<byte>, post: seq<byte>)
    ensures pre + (a + b) + post == pre + a + b + post
    ensures pre + (a + b) + post == pre + a + (b + post)
  {}

  /** A body with code around it. */
  lemma PatchGuarded(pre: seq<byte>, head: seq<Instr>, b: Stmt, tail: seq<Instr>, post: seq<byte>, x: int)
    ensures PatchesTo(pre + EncodeAll(head + StmtCode(b, None) + tail) + post, RetOffs(b, |pre| + Size(head)),
                      |pre| + Size(head) + StmtSize(b) + x,
                      pre + EncodeAll(head + StmtCode(b, Some(x)) + tail) + post)
    decreases b, 2
  {
    hide EncodeAll, StmtCode, PatchesTo, StmtSize, RetOffs;
    var cb, cb' := StmtCode(b, None), StmtCode(b, Some(x));
    EncodeAllConcat(head + cb, tail);
    EncodeAllConcat(head, cb);
    EncodeAllConcat(head + cb', tail);
    EncodeAllConcat(head, cb');
    var eh, et := EncodeAll(head), EncodeAll(tail);
    PatchStmt(pre + eh, b, et + post, x);
    assert pre + (eh + EncodeAll(cb) + et) + post == pre + eh + EncodeAll(cb) + (et + post);
    assert pre + (eh + EncodeAll(cb') + et) + post == pre + eh + EncodeAll(cb') + (et + post);
  }

  lemma PatchIf(pre: seq<byte>, st: Stmt, post: seq<byte>, x: int)
    requires st.If?
    ensures ExitPatched(pre, st, post, x)
    decreases st, 0
  {
    hide EncodeAll, Code, CondCode, PatchesTo, Size, SkipCC;
    var If(c, b) := st;
    var j := Jcc(SkipCC(c), StmtSize(b));
    var head := CondCode(c) + [j];
    SizeConcat(CondCode(c), [j]);
    JumpSizes(SkipCC(c), StmtSize(b));
    assert StmtCode(st, None) == head + StmtCode(b, None) + [];
    assert StmtCode(st, Some(x)) == head + StmtCode(b, Some(x)) + [];
    assert RetOffs(st, |pre|) == RetOffs(b, |pre| + Size(head));
    assert StmtSize(st) == Size(head) + StmtSize(b);
    hide StmtCode, RetOffs, StmtSize;
    PatchGuarded(pre, head, b, [], post, x);
  }

  lemma PatchWhile(pre: seq<byte>, st: Stmt, post: seq<byte>, x: int)
    requires st.While?
    ensures ExitPatched(pre, st, post, x)
    decreases st, 0
  {
    hide EncodeAll, Code, CondCode, PatchesTo, Size, SkipCC;
    var While(c, b) := st;
    var j := Jcc(SkipCC(c), StmtSize(b) + JMP_SIZE);
    var head, tail := CondCode(c) + [j], [Jmp(Back(StmtSize(st)))];
    SizeConcat(CondCode(c), [j]);
    JumpSizes(SkipCC(c), StmtSize(b) + JMP_SIZE);
    assert StmtCode(st, None) == head + StmtCode(b, None) + tail;
    assert StmtCode(st, Some(x)) == head + StmtCode(b, Some(x + JMP_SIZE)) + tail;
    assert RetOffs(st, |pre|) == RetOffs(b, |pre| + Size(head));
    assert StmtSize(st) == Size(head) + StmtSize(b) + JMP_SIZE;
    hide StmtCode, RetOffs, StmtSize;
    PatchGuarded(pre, head, b, tail, post, x + JMP_SIZE);
  }

  lemma PatchReturn(pre: seq<byte>, st: Stmt, post: seq<byte>, x: int)
    requires st.Return?
    ensures ExitPatched(pre, st, post, x)
  {
    hide EncodeAll, Code, PatchesTo, Size, Patched, Encode;
    var c := Code(st.e, RAX, false, 0, 0, 0);
    assert StmtCode(st, None) == c + [Jmp(0)] && StmtCode(st, Some(x)) == c + [Jmp(x)];
    var p, target := |pre| + Size(c) + 1, |pre| + StmtSize(st) + x;
    assert RetOffs(st, |pre|) == [p] && StmtSize(st) == Size(c) + JMP_SIZE;
    hide StmtCode, RetOffs, StmtSize;
    EncodeAllConcat(c, [Jmp(0)]);
    EncodeAllConcat(c, [Jmp(x)]);
    EncodeAllOne(Jmp(0));
    EncodeAllOne(Jmp(x));
    JumpBytes(0);
    SizeIs(c);
    Regroup(pre, EncodeAll(c), Encode(Jmp(0)), post);
    Regroup(pre, EncodeAll(c), Encode(Jmp(x)), post);
    PatchJmp(pre + EncodeAll(c), post, target);
    PatchesOne(pre + EncodeAll(c) + Encode(Jmp(0)) + post, p, target);
  }

  lemma JumpBytes(rel: int)
    ensures |Encode(Jmp(rel))| == 5
  {}

  lemma SizeIs(c: seq<Instr>)
    ensures Size(c) == |EncodeAll(c)|
  {}
}
